/** JSON values as Python compares them, and where two of them differ
    (paths in scripts/keyvault_facts.py). */
module Json {
  import opened Sorting
  import opened Text

  datatype Json =
    | Null | Bool(b: bool) | Num(n: real) | Str(s: string)
    | Arr(items: seq<Json>) | Obj(fields: map<string, Json>)

  /** Python's `==` on parsed JSON: True is 1, False is 0, nothing else crosses kinds. */
  function Norm(j: Json): Json {
    match j
    case Bool(b) => Num(if b then 1.0 else 0.0)
    case Arr(xs) => Arr(seq(|xs|, i requires 0 <= i < |xs| => Norm(xs[i])))
    case Obj(fs) => Obj(map k | k in fs :: Norm(fs[k]))
    case _ => j
  }

  predicate Same(a: Json, b: Json) {
    Norm(a) == Norm(b)
  }

  /** Which values that is: only true and 1, and false and 0, are the same across kinds; lists agree
      place by place, objects key by key. */
  lemma SameExactly(a: Json, b: Json)
    ensures Same(a, b) <==>
      match (a, b)
      case (Null, Null) => true
      case (Str(s), Str(t)) => s == t
      case (Arr(xs), Arr(ys)) => |xs| == |ys| && forall i :: 0 <= i < |xs| ==> Same(xs[i], ys[i])
      case (Obj(fs), Obj(gs)) => fs.Keys == gs.Keys && forall k :: k in fs && k in gs ==> Same(fs[k], gs[k])
      case (Bool(x), Bool(y)) => x == y
      case (Num(x), Num(y)) => x == y
      case (Bool(x), Num(y)) => y == if x then 1.0 else 0.0
      case (Num(x), Bool(y)) => x == if y then 1.0 else 0.0
      case _ => false
  {
    match (a, b)
    case (Arr(xs), Arr(ys)) => SameLists(a, b);
    case (Obj(fs), Obj(gs)) =>
      SameObjects(a, b, SortedSet(fs.Keys + gs.Keys));
      assert fs.Keys == gs.Keys <==> forall k :: k in fs.Keys + gs.Keys ==> k in fs && k in gs;
    case _ =>
  }

  /** One step down: a key shown as it is only when it looks like a name, never one that
      could be data; any other key by its position. */
  datatype Step = Key(name: string) | Position(n: nat) | Index(i: nat)
  datatype Diff =
    | OnlyInKeyVault(at: seq<Step>)
    | OnlyInNetBox(at: seq<Step>)
    | Lengths(at: seq<Step>, netbox: nat, keyvault: nat)
    | Value(at: seq<Step>)

  predicate NameStart(c: char) {
    Letter(c) || c == '_'
  }

  predicate SafeKey(k: string) {
    && 1 <= |k| <= 41 && NameStart(k[0])
    && forall i :: 0 <= i < |k| ==> NameStart(k[i]) || '0' <= k[i] <= '9'
  }

  function Down(at: seq<Step>, key: string, position: nat): seq<Step> {
    at + [if SafeKey(key) then Key(key) else Position(position)]
  }

  function Paths(a: Json, b: Json, at: seq<Step>): seq<Diff>
    decreases a, 1
  {
    match (a, b)
    case (Obj(fs), Obj(gs)) => FieldPaths(a, b, SortedSet(fs.Keys + gs.Keys), 1, at)
    case (Arr(xs), Arr(ys)) =>
      if |xs| == |ys| then ItemPaths(a, b, 0, at) else [Lengths(at, |xs|, |ys|)]
    case _ => if Same(a, b) then [] else [Value(at)]
  }

  function FieldPaths(a: Json, b: Json, keys: seq<string>, position: nat, at: seq<Step>): seq<Diff>
    requires a.Obj? && b.Obj?
    decreases a, 0, |keys|
  {
    if keys == [] then [] else
      var k := keys[0];
      var p := Down(at, k, position);
      (if k !in a.fields then [OnlyInKeyVault(p)]
       else if k !in b.fields then [OnlyInNetBox(p)]
       else Paths(a.fields[k], b.fields[k], p))
      + FieldPaths(a, b, keys[1..], position + 1, at)
  }

  function ItemPaths(a: Json, b: Json, i: nat, at: seq<Step>): seq<Diff>
    requires a.Arr? && b.Arr? && |a.items| == |b.items| && i <= |a.items|
    decreases a, 0, |a.items| - i
  {
    if i == |a.items| then [] else Paths(a.items[i], b.items[i], at + [Index(i)]) + ItemPaths(a, b, i + 1, at)
  }

  lemma SameObjects(a: Json, b: Json, keys: seq<string>)
    requires a.Obj? && b.Obj? && forall k :: k in keys <==> k in a.fields || k in b.fields
    ensures Same(a, b) <==> forall k :: k in keys ==> k in a.fields && k in b.fields && Same(a.fields[k], b.fields[k])
  {
    var fs, gs := Norm(a).fields, Norm(b).fields;
    assert fs.Keys == a.fields.Keys && gs.Keys == b.fields.Keys;
    if forall k :: k in keys ==> k in a.fields && k in b.fields && Same(a.fields[k], b.fields[k]) {
      assert fs.Keys == gs.Keys;
      assert fs == gs;
    }
    if Same(a, b) {
      forall k | k in keys ensures k in a.fields && k in b.fields && Same(a.fields[k], b.fields[k]) {
        assert k in fs && k in gs && fs[k] == gs[k];
      }
    }
  }

  lemma SameLists(a: Json, b: Json)
    requires a.Arr? && b.Arr?
    ensures Same(a, b) <==> |a.items| == |b.items| && forall i :: 0 <= i < |a.items| ==> Same(a.items[i], b.items[i])
  {
    var xs, ys := Norm(a).items, Norm(b).items;
    if |a.items| == |b.items| && forall i :: 0 <= i < |a.items| ==> Same(a.items[i], b.items[i]) { assert xs == ys; }
    if Same(a, b) {
      assert |xs| == |ys|;
      forall i | 0 <= i < |a.items| ensures Same(a.items[i], b.items[i]) { assert xs[i] == ys[i]; }
    }
  }

  /** No path is reported exactly when the two are the same data. */
  lemma {:induction false} PathsEmptyExactly(a: Json, b: Json, at: seq<Step>)
    ensures Paths(a, b, at) == [] <==> Same(a, b)
    decreases a, 1
  {
    match (a, b)
    case (Obj(fs), Obj(gs)) =>
      var keys := SortedSet(fs.Keys + gs.Keys);
      FieldPathsEmpty(a, b, keys, 1, at);
      SameObjects(a, b, keys);
    case (Arr(xs), Arr(ys)) =>
      SameLists(a, b);
      if |xs| == |ys| { ItemPathsEmpty(a, b, 0, at); }
    case _ =>
  }

  lemma {:induction false} FieldPathsEmpty(a: Json, b: Json, keys: seq<string>, position: nat, at: seq<Step>)
    requires a.Obj? && b.Obj?
    ensures FieldPaths(a, b, keys, position, at) == [] <==>
      forall k :: k in keys ==> k in a.fields && k in b.fields && Same(a.fields[k], b.fields[k])
    decreases a, 0, |keys|
  {
    if keys != [] {
      var k := keys[0];
      if k in a.fields && k in b.fields { PathsEmptyExactly(a.fields[k], b.fields[k], Down(at, k, position)); }
      FieldPathsEmpty(a, b, keys[1..], position + 1, at);
      assert keys == [k] + keys[1..];
    }
  }

  lemma {:induction false} ItemPathsEmpty(a: Json, b: Json, i: nat, at: seq<Step>)
    requires a.Arr? && b.Arr? && |a.items| == |b.items| && i <= |a.items|
    ensures ItemPaths(a, b, i, at) == [] <==> forall j :: i <= j < |a.items| ==> Same(a.items[j], b.items[j])
    decreases a, 0, |a.items| - i
  {
    if i < |a.items| {
      PathsEmptyExactly(a.items[i], b.items[i], at + [Index(i)]);
      ItemPathsEmpty(a, b, i + 1, at);
    }
  }
}
