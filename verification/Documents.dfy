/** Parsed documents: the tree a manifest parses to, and the nested dicts and lists
    that hold it in memory, which the capture passes change in place. */
module Documents {
  datatype Tree =
    | Text(s: string)
    | Scalar(code: int)  // a number, a boolean or null
    | Dict(entries: seq<Entry>)
    | List(items: seq<Tree>)
  datatype Entry = Entry(key: string, val: Tree)

  function Entries(keys: seq<string>, vals: seq<Tree>): seq<Entry>
    requires |keys| == |vals|
  {
    seq(|keys|, i requires 0 <= i < |keys| => Entry(keys[i], vals[i]))
  }

  /** What a dict holds under a key, or a list at an index. */
  datatype Slot = Str(s: string) | Plain(code: int) | Sub(node: Node)

  /** A dict (with its keys in order) or a list. No node is reached twice. */
  class Node {
    const isDict: bool
    const keys: seq<string>
    var slots: seq<Slot>
    ghost const Repr: set<Node>

    ghost predicate Valid()
      reads this, Repr
      decreases Repr
    {
      && this in Repr
      && (isDict ==> |keys| == |slots|)
      && (forall i :: 0 <= i < |slots| && slots[i].Sub? ==> Below(slots[i].node) && slots[i].node.Valid())
      && (forall i, j :: 0 <= i < j < |slots| && slots[i].Sub? && slots[j].Sub? ==>
           slots[i].node.Repr !! slots[j].node.Repr)
    }

    ghost predicate Below(n: Node)
      reads this
    {
      this in Repr && n in Repr && n.Repr <= Repr - {this}
    }

    /** The document this node holds. */
    ghost function ToTree(): Tree
      requires Valid()
      reads this, Repr
      decreases Repr, 1
    {
      var vals := seq(|slots|, i requires 0 <= i < |slots| &&
        (slots[i].Sub? ==> Below(slots[i].node) && slots[i].node.Valid())
                               reads this, Repr => TreeOf(slots[i]));
      if isDict then Dict(Entries(keys, vals)) else List(vals)
    }
  }

  /** Assigns a string leaf; the rest of the document is as it was. */
  method SetText(n: Node, i: nat, text: string)
    requires n.Valid() && i < |n.slots| && n.slots[i].Str?
    modifies n
    ensures n.Valid() && n.slots == old(n.slots)[i := Str(text)]
    ensures forall j :: 0 <= j < |n.slots| && j != i ==> TreeOf(n.slots[j]) == old(TreeOf(n.slots[j]))
  {
    n.slots := n.slots[i := Str(text)];
    forall j | 0 <= j < |n.slots| && n.slots[j].Sub? ensures n.slots[j].node.Valid() && n.Below(n.slots[j].node) {
      assert old(n.Below(n.slots[j].node)) && old(n.slots[j].node.Valid());
    }
  }

  ghost function TreeOf(s: Slot): Tree
    requires s.Sub? ==> s.node.Valid()
    reads if s.Sub? then {s.node} + s.node.Repr else {}
    decreases if s.Sub? then s.node.Repr else {}, 2
  {
    match s
    case Str(t) => Text(t)
    case Plain(c) => Scalar(c)
    case Sub(n) => n.ToTree()
  }

  /** The values a dict or a list holds, in order. */
  function Kids(t: Tree): (kids: seq<Tree>)
    ensures forall i :: 0 <= i < |kids| ==> kids[i] < t
  {
    match t
    case Dict(es) => seq(|es|, i requires 0 <= i < |es| => es[i].val)
    case List(ts) => ts
    case _ => []
  }

  lemma KidsAreSlots(n: Node)
    requires n.Valid()
    ensures |Kids(n.ToTree())| == |n.slots|
    ensures forall j :: 0 <= j < |n.slots| ==> TreeOf(n.slots[j]) == Kids(n.ToTree())[j]
    ensures !n.isDict ==> n.ToTree().List?
    ensures n.isDict ==>
      n.ToTree().Dict? && forall j :: 0 <= j < |n.slots| ==> n.ToTree().entries[j].key == n.keys[j]
  {
  }

  function Sum(ns: seq<nat>): nat {
    if ns == [] then 0 else Sum(ns[..|ns| - 1]) + ns[|ns| - 1]
  }
}
