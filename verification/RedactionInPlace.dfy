/** redact_credentials on the document in memory: the three passes assigning into its dicts and
    lists, each proved to do what Redaction says. */
module RedactionInPlace {
  import opened Documents
  import opened Redaction
  import opened RedactionTheorems
  import opened Text

  // ---- the two passes that look at one string and its key ------------------------------------------

  function SlotFlag(d: Detectors, p: Pass, key: Option<string>, s: string): Option<Reason> {
    match p
    case PatternPass => PatternFlag(d, s)
    case KeyPass => KeyFlag(key, s)
    case EnvPass => None
  }

  function KidAfter(d: Detectors, p: Pass, key: Option<string>, kid: Tree): Tree {
    if kid.Text? && SlotFlag(d, p, key, kid.s).Some? then Tree.Text(PLACEHOLDER) else Walked(d, p, Elsewhere, kid)
  }

  function KidFound(d: Detectors, p: Pass, key: Option<string>, kid: Tree, path: seq<nat>): seq<Record> {
    if kid.Text? && SlotFlag(d, p, key, kid.s).Some? then [Record(path, SlotFlag(d, p, key, kid.s).value)]
    else Records(d, p, Elsewhere, kid, path)
  }

  /** Only the env pass looks at where it stands. */
  lemma {:induction false} ModeFree(d: Detectors, p: Pass, m: Mode, t: Tree, path: seq<nat>)
    requires p != EnvPass
    ensures Walked(d, p, m, t) == Walked(d, p, Elsewhere, t)
    ensures Records(d, p, m, t, path) == Records(d, p, Elsewhere, t, path)
    decreases t
  {
    forall i: nat | i < |Kids(t)|
      ensures WalkedKid(d, p, m, t, i) == WalkedKid(d, p, Elsewhere, t, i)
      ensures KidRecords(d, p, m, t, i, path) == KidRecords(d, p, Elsewhere, t, i, path)
    {
      ModeFree(d, p, Below(m, t, i), Kids(t)[i], path + [i]);
      ModeFree(d, p, Below(Elsewhere, t, i), Kids(t)[i], path + [i]);
    }
    assert WalkedKids(d, p, m, t) == WalkedKids(d, p, Elsewhere, t);
    assert KidsRecords(d, p, m, t, path) == KidsRecords(d, p, Elsewhere, t, path);
  }

  lemma KidIsSlot(d: Detectors, p: Pass, t: Tree, i: nat, path: seq<nat>)
    requires p != EnvPass && i < |Kids(t)|
    ensures WalkedKid(d, p, Elsewhere, t, i) == KidAfter(d, p, KeyOf(t, i), Kids(t)[i])
    ensures KidRecords(d, p, Elsewhere, t, i, path) == KidFound(d, p, KeyOf(t, i), Kids(t)[i], path + [i])
  {
    ModeFree(d, p, Below(Elsewhere, t, i), Kids(t)[i], path + [i]);
  }

  lemma FlatMore<X>(rss: seq<seq<X>>, i: nat)
    requires i < |rss|
    ensures Flat(rss[..i + 1]) == Flat(rss[..i]) + rss[i]
  {
    assert rss[..i + 1][..i] == rss[..i];
  }

  /** A node whose slots are what a pass makes of them holds what the pass makes of the document. */
  lemma WalkDone(d: Detectors, p: Pass, m: Mode, before: Tree, after: Tree)
    requires |Kids(after)| == |Kids(before)| && (before.Dict? || before.List?)
    requires (after.Dict? <==> before.Dict?) && (after.List? <==> before.List?)
    requires forall i: nat :: KeyOf(after, i) == KeyOf(before, i)
    requires forall i :: 0 <= i < |Kids(before)| ==> Kids(after)[i] == WalkedKid(d, p, m, before, i)
    ensures after == Walked(d, p, m, before)
  {
    var w := WalkedKids(d, p, m, before);
    assert Kids(after) == w;
    SameKids(before, after, w);
  }

  lemma SameKids(before: Tree, after: Tree, kids: seq<Tree>)
    requires |kids| == |Kids(before)| && Kids(after) == kids && (before.Dict? || before.List?)
    requires (after.Dict? <==> before.Dict?) && (after.List? <==> before.List?)
    requires forall i: nat :: KeyOf(after, i) == KeyOf(before, i)
    ensures after == With(before, kids)
  {
    if after.Dict? {
      forall i: nat | i < |kids| ensures after.entries[i] == With(before, kids).entries[i] {
        assert Kids(after)[i] == after.entries[i].val && KeyOf(after, i) == KeyOf(before, i);
      }
      assert after.entries == With(before, kids).entries;
    }
  }

  lemma NodeIs(n: Node)
    requires n.Valid()
    ensures var t := n.ToTree();
      && (t.Dict? <==> n.isDict) && (t.List? <==> !n.isDict) && |Kids(t)| == |n.slots|
      && (forall j :: 0 <= j < |n.slots| ==> TreeOf(n.slots[j]) == Kids(t)[j])
      && (forall j: nat :: KeyOf(t, j) == if n.isDict && j < |n.slots| then Some(n.keys[j]) else None)
  {
    KidsAreSlots(n);
  }

  method RedactSlot(d: Detectors, p: Pass, n: Node, i: nat, path: seq<nat>) returns (rs: seq<Record>)
    requires n.Valid() && i < |n.slots| && p != EnvPass
    modifies n.Repr
    ensures n.Valid() && |n.slots| == |old(n.slots)|
    ensures forall j :: 0 <= j < |n.slots| && j != i ==> TreeOf(n.slots[j]) == old(TreeOf(n.slots[j]))
    ensures TreeOf(n.slots[i]) == KidAfter(d, p, if n.isDict then Some(n.keys[i]) else None, old(TreeOf(n.slots[i])))
    ensures rs == KidFound(d, p, if n.isDict then Some(n.keys[i]) else None, old(TreeOf(n.slots[i])), path + [i])
    decreases n.Repr, 0
  {
    rs := [];
    if n.slots[i].Str? {
      var flag := SlotFlag(d, p, if n.isDict then Some(n.keys[i]) else None, n.slots[i].s);
      TextWalks(d, p, Tree.Text(n.slots[i].s), path + [i]);
      if flag.Some? {
        SetText(n, i, PLACEHOLDER);
        rs := [Record(path + [i], flag.value)];
      }
    } else if n.slots[i].Sub? {
      rs := RedactChild(d, p, n, i, path);
    } else {
      TextWalks(d, p, TreeOf(n.slots[i]), path + [i]);
    }
  }

  lemma TextWalks(d: Detectors, p: Pass, t: Tree, path: seq<nat>)
    requires t.Text? || t.Scalar?
    ensures forall m :: Walked(d, p, m, t) == t && Records(d, p, m, t, path) == []
  {
    forall m ensures Walked(d, p, m, t) == t && Records(d, p, m, t, path) == [] {
      assert KidsRecords(d, p, m, t, path) == [];
    }
  }

  method RedactChild(d: Detectors, p: Pass, n: Node, i: nat, path: seq<nat>) returns (rs: seq<Record>)
    requires n.Valid() && i < |n.slots| && n.slots[i].Sub? && p != EnvPass
    modifies n.slots[i].node.Repr
    ensures n.Valid() && n.slots == old(n.slots)
    ensures forall j :: 0 <= j < |n.slots| && j != i ==> TreeOf(n.slots[j]) == old(TreeOf(n.slots[j]))
    ensures TreeOf(n.slots[i]) == Walked(d, p, Elsewhere, old(TreeOf(n.slots[i])))
    ensures !TreeOf(n.slots[i]).Text? && !old(TreeOf(n.slots[i])).Text?
    ensures rs == Records(d, p, Elsewhere, old(TreeOf(n.slots[i])), path + [i])
    decreases n.slots[i].node.Repr, 2
  {
    NodeIs(n.slots[i].node);
    rs := RedactByString(d, p, n.slots[i].node, path + [i]);
    forall j | 0 <= j < |n.slots| && j != i && n.slots[j].Sub?
      ensures n.slots[j].node.Valid() && n.slots[j].node.ToTree() == old(n.slots[j].node.ToTree())
    {
      assert n.slots[j].node.Repr !! n.slots[i].node.Repr;
    }
  }

  /** _redact_pattern_matches and _redact_suspicious_plaintext. */
  method RedactByString(d: Detectors, p: Pass, n: Node, path: seq<nat>) returns (rs: seq<Record>)
    requires n.Valid() && p != EnvPass
    modifies n.Repr
    ensures n.Valid()
    ensures n.ToTree() == Walked(d, p, Elsewhere, old(n.ToTree()))
    ensures rs == Records(d, p, Elsewhere, old(n.ToTree()), path)
    decreases n.Repr, 1
  {
    ghost var before := n.ToTree();
    ghost var rss := KidsRecords(d, p, Elsewhere, before, path);
    NodeIs(n);
    rs := [];
    for i := 0 to |n.slots|
      invariant |n.slots| == |Kids(before)| && n.Valid()
      invariant forall j :: 0 <= j < i ==> TreeOf(n.slots[j]) == WalkedKid(d, p, Elsewhere, before, j)
      invariant forall j :: i <= j < |n.slots| ==> TreeOf(n.slots[j]) == Kids(before)[j]
      invariant rs == Flat(rss[..i])
    {
      KidIsSlot(d, p, before, i, path);
      FlatMore(rss, i);
      var more := RedactSlot(d, p, n, i, path);
      rs := rs + more;
    }
    NodeIs(n);
    assert rss[..|n.slots|] == rss;
    WalkDone(d, p, Elsewhere, before, n.ToTree());
  }

  // ---- the env pass: an env list's entries first, then the walk into it -----------------------------------

  predicate Flagged(item: Tree) {
    EnvName(item).Some? && Get(item, "value") != Tree.Text(PLACEHOLDER)
  }

  function FixedEntry(item: Tree): Tree {
    if Flagged(item) then With(item, Kids(item)[Position(item.entries, "value") := Tree.Text(PLACEHOLDER)]) else item
  }

  function FixedEntries(t: Tree): seq<Tree> {
    seq(|Kids(t)|, i requires 0 <= i < |Kids(t)| => FixedEntry(Kids(t)[i]))
  }

  function EntryFound(item: Tree, path: seq<nat>): seq<Record> {
    if Flagged(item) then [Record(path + [Position(item.entries, "value")], EnvVar(EnvName(item).value))] else []
  }

  function EntriesFound(t: Tree, path: seq<nat>): seq<seq<Record>> {
    seq(|Kids(t)|, i requires 0 <= i < |Kids(t)| => EntryFound(Kids(t)[i], path + [i]))
  }

  /** An entry fixed and then walked is the entry walked as one. */
  lemma EntryWalk(d: Detectors, item: Tree, path: seq<nat>)
    ensures Walked(d, EnvPass, Elsewhere, FixedEntry(item)) == Walked(d, EnvPass, EnvEntry, item)
    ensures multiset(Records(d, EnvPass, EnvEntry, item, path)) ==
      multiset(EntryFound(item, path)) + multiset(Records(d, EnvPass, Elsewhere, FixedEntry(item), path))
  {
    var fixed := FixedEntry(item);
    var n := |Kids(item)|;
    var own := seq(n, i requires 0 <= i < n =>
      if Flagged(item) && i == Position(item.entries, "value") then EntryFound(item, path) else []);
    forall i: nat | i < n
      ensures WalkedKid(d, EnvPass, Elsewhere, fixed, i) == WalkedKid(d, EnvPass, EnvEntry, item, i)
      ensures KidRecords(d, EnvPass, EnvEntry, item, i, path) ==
        own[i] + KidRecords(d, EnvPass, Elsewhere, fixed, i, path)
    {
      EntryKid(d, item, i, path);
    }
    assert WalkedKids(d, EnvPass, Elsewhere, fixed) == WalkedKids(d, EnvPass, EnvEntry, item);
    if Flagged(item) {
      WithWith(item, Kids(fixed), WalkedKids(d, EnvPass, EnvEntry, item));
      FlatOne(own, Position(item.entries, "value"));
    } else {
      FlatEmpty(own);
    }
    FlatSum(KidsRecords(d, EnvPass, EnvEntry, item, path), own, KidsRecords(d, EnvPass, Elsewhere, fixed, path));
  }

  lemma EntryKid(d: Detectors, item: Tree, i: nat, path: seq<nat>)
    requires i < |Kids(item)|
    ensures var own := if Flagged(item) && i == Position(item.entries, "value") then EntryFound(item, path) else [];
      && WalkedKid(d, EnvPass, Elsewhere, FixedEntry(item), i) == WalkedKid(d, EnvPass, EnvEntry, item, i)
      && KidRecords(d, EnvPass, EnvEntry, item, i, path) ==
         own + KidRecords(d, EnvPass, Elsewhere, FixedEntry(item), i, path)
  {
    var fixed := FixedEntry(item);
    if Flagged(item) && i == Position(item.entries, "value") {
      assert Kids(item)[i] == item.entries[i].val == Get(item, "value");
      TextWalks(d, EnvPass, Tree.Text(PLACEHOLDER), path + [i]);
      assert Flag(d, EnvPass, EnvEntry, item, i).Some?;
    } else {
      assert Kids(fixed)[i] == Kids(item)[i] && KeyOf(fixed, i) == KeyOf(item, i);
      if item.Dict? {
        assert Kids(item)[i] == item.entries[i].val;
      }
      assert Flag(d, EnvPass, EnvEntry, item, i).None?;
      assert Below(EnvEntry, item, i) == Below(Elsewhere, fixed, i);
    }
  }

  lemma {:induction false} FlatOne(rss: seq<seq<Record>>, k: nat)
    requires k < |rss| && forall i :: 0 <= i < |rss| && i != k ==> rss[i] == []
    ensures Flat(rss) == rss[k]
  {
    var more := rss[..|rss| - 1];
    assert forall i :: 0 <= i < |more| ==> more[i] == rss[i];
    if k == |more| {
      FlatEmpty(more);
    } else {
      FlatOne(more, k);
    }
  }

  lemma {:induction false} FlatSum(a: seq<seq<Record>>, b: seq<seq<Record>>, c: seq<seq<Record>>)
    requires |a| == |b| == |c| && forall i :: 0 <= i < |a| ==> multiset(a[i]) == multiset(b[i]) + multiset(c[i])
    ensures multiset(Flat(a)) == multiset(Flat(b)) + multiset(Flat(c))
  {
    if a != [] {
      var n := |a| - 1;
      assert a[..n][..0] == [] && forall i :: 0 <= i < n ==>
        a[..n][i] == a[i] && b[..n][i] == b[i] && c[..n][i] == c[i];
      FlatSum(a[..n], b[..n], c[..n]);
    }
  }

  /** So is a whole env list. */
  lemma ListWalk(d: Detectors, t: Tree, path: seq<nat>)
    requires LooksLikeEnv(t)
    ensures Walked(d, EnvPass, Elsewhere, With(t, FixedEntries(t))) == Walked(d, EnvPass, EnvList, t)
    ensures multiset(Records(d, EnvPass, EnvList, t, path)) ==
      multiset(Flat(EntriesFound(t, path))) + multiset(Records(d, EnvPass, Elsewhere, With(t, FixedEntries(t)), path))
  {
    var fixed := With(t, FixedEntries(t));
    forall i: nat | i < |Kids(t)|
      ensures WalkedKid(d, EnvPass, Elsewhere, fixed, i) == WalkedKid(d, EnvPass, EnvList, t, i)
      ensures multiset(KidRecords(d, EnvPass, EnvList, t, i, path)) ==
        multiset(EntryFound(Kids(t)[i], path + [i])) + multiset(KidRecords(d, EnvPass, Elsewhere, fixed, i, path))
    {
      assert Kids(fixed)[i] == FixedEntry(Kids(t)[i]) && HasKey(t.items[i], "name");
      EntryWalk(d, Kids(t)[i], path + [i]);
    }
    assert WalkedKids(d, EnvPass, Elsewhere, fixed) == WalkedKids(d, EnvPass, EnvList, t);
    FlatSum(KidsRecords(d, EnvPass, EnvList, t, path), EntriesFound(t, path),
      KidsRecords(d, EnvPass, Elsewhere, fixed, path));
  }

  // ---- the order its records come in ---------------------------------------------------------------------

  /** The env pass's records as the source appends them: an env list's own before those further in. */
  function EnvRecords(t: Tree, path: seq<nat>): seq<Record>
    decreases t, 1
  {
    Flat(EnvKidsRecords(t, path))
  }

  function EnvKidsRecords(t: Tree, path: seq<nat>): seq<seq<Record>>
    decreases t, 0
  {
    seq(|Kids(t)|, i requires 0 <= i < |Kids(t)| => EnvSlotRecords(KeyOf(t, i), Kids(t)[i], path + [i]))
  }

  function EnvSlotRecords(key: Option<string>, kid: Tree, path: seq<nat>): seq<Record>
    decreases kid, 2
  {
    if IsEnv(key, kid) then Flat(EntriesFound(kid, path)) + EnvRecords(kid, path) else EnvRecords(kid, path)
  }

  lemma FixedKidRecords(d: Detectors, item: Tree, path: seq<nat>, i: nat)
    requires i < |Kids(item)|
    ensures var fixed := FixedEntry(item);
      && |Kids(fixed)| == |Kids(item)|
      && EnvSlotRecords(KeyOf(fixed, i), Kids(fixed)[i], path + [i]) ==
           EnvSlotRecords(KeyOf(item, i), Kids(item)[i], path + [i])
      && KidRecords(d, EnvPass, Elsewhere, fixed, i, path) == KidRecords(d, EnvPass, Elsewhere, item, i, path)
  {
    var fixed := FixedEntry(item);
    if Kids(fixed)[i] != Kids(item)[i] {
      assert Kids(item)[i] == Get(item, "value");
      NoTextRecords(d, Kids(item)[i], path + [i]);
      NoTextRecords(d, Kids(fixed)[i], path + [i]);
    }
  }

  /** Fixing an entry replaces a text by a text, which the walk passes over. */
  lemma FixedEntryRecords(d: Detectors, item: Tree, path: seq<nat>)
    ensures EnvRecords(FixedEntry(item), path) == EnvRecords(item, path)
    ensures Records(d, EnvPass, Elsewhere, FixedEntry(item), path) == Records(d, EnvPass, Elsewhere, item, path)
  {
    var fixed := FixedEntry(item);
    forall i: nat | i < |Kids(item)|
      ensures EnvSlotRecords(KeyOf(fixed, i), Kids(fixed)[i], path + [i]) ==
        EnvSlotRecords(KeyOf(item, i), Kids(item)[i], path + [i])
      ensures KidRecords(d, EnvPass, Elsewhere, fixed, i, path) == KidRecords(d, EnvPass, Elsewhere, item, i, path)
    {
      FixedKidRecords(d, item, path, i);
    }
    assert EnvKidsRecords(fixed, path) == EnvKidsRecords(item, path);
    assert KidsRecords(d, EnvPass, Elsewhere, fixed, path) == KidsRecords(d, EnvPass, Elsewhere, item, path);
  }

  lemma NoTextRecords(d: Detectors, t: Tree, path: seq<nat>)
    requires t.Text?
    ensures EnvRecords(t, path) == [] && Records(d, EnvPass, Elsewhere, t, path) == []
    ensures forall key :: !IsEnv(key, t)
  {
    TextWalks(d, EnvPass, t, path);
    assert EnvKidsRecords(t, path) == [];
  }

  lemma FixedListRecords(d: Detectors, t: Tree, path: seq<nat>)
    requires LooksLikeEnv(t)
    ensures EnvRecords(With(t, FixedEntries(t)), path) == EnvRecords(t, path)
    ensures Records(d, EnvPass, Elsewhere, With(t, FixedEntries(t)), path) == Records(d, EnvPass, Elsewhere, t, path)
  {
    var fixed := With(t, FixedEntries(t));
    forall i: nat | i < |Kids(t)|
      ensures EnvSlotRecords(KeyOf(fixed, i), Kids(fixed)[i], path + [i]) ==
        EnvSlotRecords(KeyOf(t, i), Kids(t)[i], path + [i])
      ensures KidRecords(d, EnvPass, Elsewhere, fixed, i, path) == KidRecords(d, EnvPass, Elsewhere, t, i, path)
    {
      FixedEntryRecords(d, Kids(t)[i], path + [i]);
      assert HasKey(t.items[i], "name");
    }
    assert EnvKidsRecords(fixed, path) == EnvKidsRecords(t, path);
    assert KidsRecords(d, EnvPass, Elsewhere, fixed, path) == KidsRecords(d, EnvPass, Elsewhere, t, path);
  }

  lemma {:induction false} FlatSame(a: seq<seq<Record>>, b: seq<seq<Record>>)
    requires |a| == |b| && forall i :: 0 <= i < |a| ==> multiset(a[i]) == multiset(b[i])
    ensures multiset(Flat(a)) == multiset(Flat(b))
  {
    if a != [] {
      var n := |a| - 1;
      assert forall i :: 0 <= i < n ==> a[..n][i] == a[i] && b[..n][i] == b[i];
      FlatSame(a[..n], b[..n]);
    }
  }

  /** They are the specification's records, each as often. */
  lemma {:induction false} EnvRecordsAre(d: Detectors, t: Tree, path: seq<nat>)
    ensures multiset(EnvRecords(t, path)) == multiset(Records(d, EnvPass, Elsewhere, t, path))
    decreases t
  {
    forall i: nat | i < |Kids(t)|
      ensures multiset(EnvSlotRecords(KeyOf(t, i), Kids(t)[i], path + [i])) ==
        multiset(KidRecords(d, EnvPass, Elsewhere, t, i, path))
    {
      var kid, at := Kids(t)[i], path + [i];
      EnvKid(d, t, i, path);
      EnvRecordsAre(d, kid, at);
      if IsEnv(KeyOf(t, i), kid) {
        ListWalk(d, kid, at);
        FixedListRecords(d, kid, at);
      }
    }
    FlatSame(EnvKidsRecords(t, path), KidsRecords(d, EnvPass, Elsewhere, t, path));
  }

  function KeyIndex(keys: seq<string>, key: string): (i: nat)
    ensures i <= |keys|
  {
    if keys == [] || keys[0] == key then 0 else 1 + KeyIndex(keys[1..], key)
  }

  lemma {:induction false} KeyIndexIs(keys: seq<string>, es: seq<Entry>, key: string)
    requires |keys| == |es| && forall j :: 0 <= j < |es| ==> es[j].key == keys[j]
    ensures KeyIndex(keys, key) == Position(es, key)
  {
    if keys != [] && keys[0] != key {
      KeyIndexIs(keys[1..], es[1..], key);
    }
  }

  /** What a dict node says about one key. */
  lemma NodeKey(n: Node, key: string)
    requires n.Valid() && n.isDict
    ensures var k := KeyIndex(n.keys, key);
      && Position(n.ToTree().entries, key) == k && (HasKey(n.ToTree(), key) <==> k < |n.keys|)
      && (k < |n.keys| ==> Get(n.ToTree(), key) == TreeOf(n.slots[k]))
  {
    NodeIs(n);
    var es := n.ToTree().entries;
    forall j: nat | j < |es| ensures es[j].key == n.keys[j] {
      assert KeyOf(n.ToTree(), j) == Some(n.keys[j]);
    }
    KeyIndexIs(n.keys, es, key);
    var k := KeyIndex(n.keys, key);
    if k < |n.keys| {
      assert Kids(n.ToTree())[k] == es[k].val;
    }
  }

  /** _looks_like_env_var_list on a list in memory. */
  method LooksLikeEnvNode(n: Node) returns (b: bool)
    requires n.Valid()
    ensures b == LooksLikeEnv(n.ToTree())
  {
    NodeIs(n);
    if n.isDict || n.slots == [] {
      return false;
    }
    for i := 0 to |n.slots|
      invariant forall j :: 0 <= j < i ==> HasKey(Kids(n.ToTree())[j], "name")
    {
      if n.slots[i].Sub? {
        NodeIs(n.slots[i].node);
        if n.slots[i].node.isDict {
          NodeKey(n.slots[i].node, "name");
        }
      }
      if !(n.slots[i].Sub? && n.slots[i].node.isDict
           && KeyIndex(n.slots[i].node.keys, "name") < |n.slots[i].node.keys|)
      {
        assert !HasKey(Kids(n.ToTree())[i], "name");
        assert !HasKey(n.ToTree().items[i], "name");
        return false;
      }
    }
    assert forall j :: 0 <= j < |n.ToTree().items| ==> n.ToTree().items[j] == Kids(n.ToTree())[j];
    return true;
  }

  /** One entry of an env list: its value replaced where its name says credential. */
  method FixEntry(item: Node, path: seq<nat>) returns (rs: seq<Record>)
    requires item.Valid() && item.isDict
    modifies item
    ensures item.Valid() && item.ToTree() == FixedEntry(old(item.ToTree())) &&
      rs == EntryFound(old(item.ToTree()), path)
  {
    ghost var before := item.ToTree();
    NodeIs(item);
    NodeKey(item, "name");
    NodeKey(item, "value");
    var j, k := KeyIndex(item.keys, "name"), KeyIndex(item.keys, "value");
    if j < |item.keys| && k < |item.keys| && item.slots[j].Str? && item.slots[k].Str? {
      var name, value := item.slots[j].s, item.slots[k].s;
      if Suspicious(name) && Lower(Strip(value)) !in NOT_A_CREDENTIAL && value != PLACEHOLDER {
        SetText(item, k, PLACEHOLDER);
        NodeIs(item);
        SameKids(before, item.ToTree(), Kids(before)[k := Tree.Text(PLACEHOLDER)]);
        return [Record(path + [k], EnvVar(name))];
      }
    }
    return [];
  }

  method FixEntryOf(list: Node, i: nat, path: seq<nat>) returns (rs: seq<Record>)
    requires list.Valid() && i < |list.slots| && list.slots[i].Sub? && list.slots[i].node.isDict
    modifies list.slots[i].node
    ensures list.Valid() && list.slots == old(list.slots)
    ensures forall j :: 0 <= j < |list.slots| && j != i ==> TreeOf(list.slots[j]) == old(TreeOf(list.slots[j]))
    ensures TreeOf(list.slots[i]) == FixedEntry(old(TreeOf(list.slots[i])))
    ensures rs == EntryFound(old(TreeOf(list.slots[i])), path + [i])
  {
    var item := list.slots[i].node;
    rs := FixEntry(item, path + [i]);
    forall j | 0 <= j < |list.slots| && j != i && list.slots[j].Sub?
      ensures list.slots[j].node.Valid() && list.slots[j].node.ToTree() == old(list.slots[j].node.ToTree())
    {
      assert list.slots[j].node.Repr !! item.Repr && item in item.Repr;
    }
  }

  /** The loop over an env list. */
  method FixEntries(list: Node, path: seq<nat>) returns (rs: seq<Record>)
    requires list.Valid() && LooksLikeEnv(list.ToTree())
    modifies list.Repr
    ensures list.Valid() && list.slots == old(list.slots)
    ensures list.ToTree() == With(old(list.ToTree()), FixedEntries(old(list.ToTree())))
    ensures rs == Flat(EntriesFound(old(list.ToTree()), path))
  {
    ghost var before := list.ToTree();
    ghost var rss := EntriesFound(before, path);
    NodeIs(list);
    rs := [];
    for i := 0 to |list.slots|
      invariant list.Valid() && list.slots == old(list.slots)
      invariant forall j :: 0 <= j < i ==> TreeOf(list.slots[j]) == FixedEntry(Kids(before)[j])
      invariant forall j :: i <= j < |list.slots| ==> TreeOf(list.slots[j]) == Kids(before)[j]
      invariant rs == Flat(rss[..i])
    {
      FlatMore(rss, i);
      assert HasKey(before.items[i], "name");
      DictSlot(list, i);
      var more := FixEntryOf(list, i, path);
      rs := rs + more;
    }
    NodeIs(list);
    assert rss[..|list.slots|] == rss;
    SameKids(before, list.ToTree(), FixedEntries(before));
  }

  lemma DictSlot(n: Node, i: nat)
    requires n.Valid() && i < |n.slots| && TreeOf(n.slots[i]).Dict?
    ensures n.slots[i].Sub? && n.slots[i].node.isDict
  {
    if n.slots[i].Sub? {
      NodeIs(n.slots[i].node);
    }
  }

  method FixChildEntries(n: Node, i: nat, path: seq<nat>) returns (rs: seq<Record>)
    requires n.Valid() && i < |n.slots| && n.slots[i].Sub? && LooksLikeEnv(TreeOf(n.slots[i]))
    modifies n.slots[i].node.Repr
    ensures n.Valid() && n.slots == old(n.slots)
    ensures forall j :: 0 <= j < |n.slots| && j != i ==> TreeOf(n.slots[j]) == old(TreeOf(n.slots[j]))
    ensures TreeOf(n.slots[i]) == With(old(TreeOf(n.slots[i])), FixedEntries(old(TreeOf(n.slots[i]))))
    ensures rs == Flat(EntriesFound(old(TreeOf(n.slots[i])), path + [i]))
  {
    rs := FixEntries(n.slots[i].node, path + [i]);
    forall j | 0 <= j < |n.slots| && j != i && n.slots[j].Sub?
      ensures n.slots[j].node.Valid() && n.slots[j].node.ToTree() == old(n.slots[j].node.ToTree())
    {
      assert n.slots[j].node.Repr !! n.slots[i].node.Repr;
    }
  }

  method WalkChildEnv(d: Detectors, n: Node, i: nat, path: seq<nat>) returns (rs: seq<Record>)
    requires n.Valid() && i < |n.slots| && n.slots[i].Sub?
    modifies n.slots[i].node.Repr
    ensures n.Valid() && n.slots == old(n.slots)
    ensures forall j :: 0 <= j < |n.slots| && j != i ==> TreeOf(n.slots[j]) == old(TreeOf(n.slots[j]))
    ensures TreeOf(n.slots[i]) == Walked(d, EnvPass, Elsewhere, old(TreeOf(n.slots[i])))
    ensures rs == EnvRecords(old(TreeOf(n.slots[i])), path + [i])
    decreases n.slots[i].node.Repr, 2
  {
    rs := RedactEnv(d, n.slots[i].node, path + [i]);
    forall j | 0 <= j < |n.slots| && j != i && n.slots[j].Sub?
      ensures n.slots[j].node.Valid() && n.slots[j].node.ToTree() == old(n.slots[j].node.ToTree())
    {
      assert n.slots[j].node.Repr !! n.slots[i].node.Repr;
    }
  }

  const ENV_KEYS: seq<string> := ["env", "args", "command"]

  /** One slot's turn: fix it if it is an env list, then walk into it. */
  method EnvSlot(d: Detectors, n: Node, i: nat, path: seq<nat>) returns (rs: seq<Record>)
    requires n.Valid() && i < |n.slots|
    modifies n.Repr
    ensures n.Valid() && |n.slots| == |old(n.slots)|
    ensures forall j :: 0 <= j < |n.slots| && j != i ==> TreeOf(n.slots[j]) == old(TreeOf(n.slots[j]))
    ensures var kid := old(TreeOf(n.slots[i]));
      var m := if IsEnv(if n.isDict then Some(n.keys[i]) else None, kid) then EnvList else Elsewhere;
      && TreeOf(n.slots[i]) == Walked(d, EnvPass, m, kid)
      && rs == EnvSlotRecords(if n.isDict then Some(n.keys[i]) else None, kid, path + [i])
    decreases n.Repr, 0
  {
    if n.slots[i].Sub? {
      rs := EnvChild(d, n, i, path);
    } else {
      rs := [];
      TextWalks(d, EnvPass, TreeOf(n.slots[i]), path + [i]);
      assert EnvKidsRecords(TreeOf(n.slots[i]), path + [i]) == [];
    }
  }

  /** An env list: its entries fixed, then walked into like anything else. */
  method EnvListChild(d: Detectors, n: Node, i: nat, path: seq<nat>) returns (rs: seq<Record>)
    requires n.Valid() && i < |n.slots| && n.slots[i].Sub? && LooksLikeEnv(TreeOf(n.slots[i]))
    modifies n.slots[i].node.Repr
    ensures n.Valid() && n.slots == old(n.slots)
    ensures forall j :: 0 <= j < |n.slots| && j != i ==> TreeOf(n.slots[j]) == old(TreeOf(n.slots[j]))
    ensures TreeOf(n.slots[i]) == Walked(d, EnvPass, EnvList, old(TreeOf(n.slots[i])))
    ensures var kid := old(TreeOf(n.slots[i]));
      rs == Flat(EntriesFound(kid, path + [i])) + EnvRecords(kid, path + [i])
    decreases n.slots[i].node.Repr, 3
  {
    ghost var t := TreeOf(n.slots[i]);
    ListWalk(d, t, path + [i]);
    FixedListRecords(d, t, path + [i]);
    var fixed := FixChildEntries(n, i, path);
    var more := WalkChildEnv(d, n, i, path);
    rs := fixed + more;
  }

  method EnvChild(d: Detectors, n: Node, i: nat, path: seq<nat>) returns (rs: seq<Record>)
    requires n.Valid() && i < |n.slots| && n.slots[i].Sub?
    modifies n.slots[i].node.Repr
    ensures n.Valid() && n.slots == old(n.slots)
    ensures forall j :: 0 <= j < |n.slots| && j != i ==> TreeOf(n.slots[j]) == old(TreeOf(n.slots[j]))
    ensures var kid := old(TreeOf(n.slots[i]));
      var m := if IsEnv(if n.isDict then Some(n.keys[i]) else None, kid) then EnvList else Elsewhere;
      && TreeOf(n.slots[i]) == Walked(d, EnvPass, m, kid)
      && rs == EnvSlotRecords(if n.isDict then Some(n.keys[i]) else None, kid, path + [i])
    decreases n.slots[i].node.Repr, 4
  {
    var env := IsEnvSlot(n, i);
    if env {
      rs := EnvListChild(d, n, i, path);
    } else {
      rs := WalkChildEnv(d, n, i, path);
    }
  }

  method IsEnvSlot(n: Node, i: nat) returns (env: bool)
    requires n.Valid() && i < |n.slots| && n.slots[i].Sub?
    ensures env == IsEnv(if n.isDict then Some(n.keys[i]) else None, TreeOf(n.slots[i]))
  {
    env := false;
    if n.isDict && n.keys[i] in ENV_KEYS {
      env := LooksLikeEnvNode(n.slots[i].node);
    }
  }

  lemma EnvKid(d: Detectors, t: Tree, i: nat, path: seq<nat>)
    requires i < |Kids(t)|
    ensures var m := if IsEnv(KeyOf(t, i), Kids(t)[i]) then EnvList else Elsewhere;
      && WalkedKid(d, EnvPass, Elsewhere, t, i) == Walked(d, EnvPass, m, Kids(t)[i])
      && KidRecords(d, EnvPass, Elsewhere, t, i, path) == Records(d, EnvPass, m, Kids(t)[i], path + [i])
  {
  }

  /** _redact_env_var_credentials; its records are the specification's, an env list's own before
      those further in. */
  method RedactEnv(d: Detectors, n: Node, path: seq<nat>) returns (rs: seq<Record>)
    requires n.Valid()
    modifies n.Repr
    ensures n.Valid()
    ensures n.ToTree() == Walked(d, EnvPass, Elsewhere, old(n.ToTree()))
    ensures rs == EnvRecords(old(n.ToTree()), path)
    ensures multiset(rs) == multiset(Records(d, EnvPass, Elsewhere, old(n.ToTree()), path))
    decreases n.Repr, 1
  {
    ghost var before := n.ToTree();
    ghost var rss := EnvKidsRecords(before, path);
    NodeIs(n);
    rs := [];
    for i := 0 to |n.slots|
      invariant |n.slots| == |Kids(before)| && n.Valid()
      invariant forall j :: 0 <= j < i ==> TreeOf(n.slots[j]) == WalkedKid(d, EnvPass, Elsewhere, before, j)
      invariant forall j :: i <= j < |n.slots| ==> TreeOf(n.slots[j]) == Kids(before)[j]
      invariant rs == Flat(rss[..i])
    {
      EnvKid(d, before, i, path);
      FlatMore(rss, i);
      var more := EnvSlot(d, n, i, path);
      rs := rs + more;
    }
    NodeIs(n);
    assert rss[..|n.slots|] == rss;
    WalkDone(d, EnvPass, Elsewhere, before, n.ToTree());
    EnvRecordsAre(d, before, path);
  }

  /** A run's records as the source appends them. */
  function InOrder(d: Detectors, t: Tree): seq<Record> {
    Records(d, PatternPass, Elsewhere, t, []) + EnvRecords(AfterPatterns(d, t), [])
      + Records(d, KeyPass, Elsewhere, AfterEnv(d, t), [])
  }

  /** redact_credentials: patterns, then env vars, then key names. */
  method RedactCredentials(d: Detectors, n: Node) returns (rs: seq<Record>)
    requires n.Valid()
    modifies n.Repr
    ensures n.Valid()
    ensures n.ToTree() == Redacted(d, old(n.ToTree()))
    ensures rs == InOrder(d, old(n.ToTree()))
    ensures multiset(rs) == multiset(AllRecords(d, old(n.ToTree())))
  {
    var byPattern := RedactByString(d, PatternPass, n, []);
    var byName := RedactEnv(d, n, []);
    var byKey := RedactByString(d, KeyPass, n, []);
    rs := byPattern + byName + byKey;
  }
}
