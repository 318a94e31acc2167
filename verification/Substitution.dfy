/** Private literals out, placeholders in (scripts/k8s_backup/varsub.py), foreign
    references escaped (scripts/k8s_backup/promote.py), and what Flux makes of the
    result. Capture is the printer, Flux's postBuild substitution the parser. */
module Substitution {
  import opened Text

  /** One entry of the substitution list. `replace` is false for a plain setting,
      which Flux substitutes but capture never searches for. */
  datatype Sub = Sub(literal: string, placeholder: string, replace: bool)

  function Var(name: string): string {
    "${" + name + "}"
  }

  ghost predicate IsVar(placeholder: string) {
    exists n :: placeholder == Var(n)
  }

  // ---- capture -----------------------------------------------------------------

  function Replaceable(subs: seq<Sub>): seq<Sub> {
    if subs == [] then []
    else (if subs[0].replace then [subs[0]] else []) + Replaceable(subs[1..])
  }

  function InsertByLength(sub: Sub, sorted: seq<Sub>): seq<Sub> {
    if sorted == [] || |sub.literal| >= |sorted[0].literal| then [sub] + sorted
    else [sorted[0]] + InsertByLength(sub, sorted[1..])
  }

  /** `sorted(..., key=len(literal), reverse=True)`, which keeps equals in their order. */
  function LongestFirst(subs: seq<Sub>): seq<Sub> {
    if subs == [] then [] else InsertByLength(subs[0], LongestFirst(subs[1..]))
  }

  function ApplyInOrder(text: string, order: seq<Sub>): string
    decreases |order|
  {
    if order == [] then text
    else ApplyInOrder(Replace(text, order[0].literal, order[0].placeholder), order[1..])
  }

  function Order(subs: seq<Sub>): seq<Sub> {
    LongestFirst(Replaceable(subs))
  }

  function ApplyText(text: string, subs: seq<Sub>): string {
    ApplyInOrder(text, Order(subs))
  }

  lemma {:induction false} ApplyInOrderSplit(text: string, a: seq<Sub>, b: seq<Sub>)
    ensures ApplyInOrder(text, a + b) == ApplyInOrder(ApplyInOrder(text, a), b)
    decreases |a|
  {
    if a == [] {
      assert a + b == b;
    } else {
      assert (a + b)[1..] == a[1..] + b;
      ApplyInOrderSplit(Replace(text, a[0].literal, a[0].placeholder), a[1..], b);
    }
  }

  /** apply_substitutions_text: the text rebound once per entry, longest literal first. */
  method ApplySubstitutionsText(text: string, subs: seq<Sub>) returns (result: string)
    ensures result == ApplyText(text, subs)
  {
    result := text;
    var order := Order(subs);
    for i := 0 to |order|
      invariant result == ApplyInOrder(text, order[..i])
    {
      ApplyInOrderSplit(text, order[..i], [order[i]]);
      assert order[..i + 1] == order[..i] + [order[i]];
      result := Replace(result, order[i].literal, order[i].placeholder);
    }
    assert order[..|order|] == order;
  }

  /** _VAR_REF.sub(...): scanned from the left, a match being a `${` not right after a `$`
      and closed by the next `}`. A name that isn't known gets one more `$` in front. */
  function EscapeFrom(s: string, afterDollar: bool, known: set<string>): string
    decreases |s|
  {
    if s == "" then ""
    else if !afterDollar && "${" <= s && Find(s, '}', 2) < |s| then
      var e := Find(s, '}', 2);
      (if s[2..e] in known then "" else "$") + s[..e + 1] + EscapeFrom(s[e + 1..], false, known)
    else [s[0]] + EscapeFrom(s[1..], s[0] == '$', known)
  }

  function Escape(s: string, known: set<string>): string {
    EscapeFrom(s, false, known)
  }

  // ---- Flux (assumed: the behaviour of its strict postBuild substitution) --------

  /** `$${` is a literal `${`; `${NAME}` is NAME's value; an unknown name or an
      unclosed `${` fails the whole Kustomization. A value isn't expanded again. */
  function Expand(s: string, env: map<string, string>): Option<string>
    decreases |s|
  {
    if s == "" then Some("")
    else if "$${" <= s then Prepend("${", Expand(s[3..], env))
    else if "${" <= s then
      var e := Find(s, '}', 2);
      if e < |s| && s[2..e] in env then Prepend(env[s[2..e]], Expand(s[e + 1..], env)) else None
    else Prepend([s[0]], Expand(s[1..], env))
  }

  function Prepend(head: string, tail: Option<string>): Option<string> {
    match tail
    case None => None
    case Some(t) => Some(head + t)
  }

  // ---- the hypotheses --------------------------------------------------------------

  /** A copy of `l` laid at offset `d` of `p` agrees with it wherever the two overlap. */
  predicate Overlaps(l: string, p: string, d: int) {
    forall i :: 0 <= i < |l| && 0 <= d + i < |p| ==> l[i] == p[d + i]
  }

  /** No text holding `p` can hold a copy of `l` that shares a character with it. */
  predicate Apart(l: string, p: string) {
    forall d :: -|l| < d < |p| ==> !Overlaps(l, p, d)
  }

  /** Every literal is something to find, and none can be found in, or half in, any
      placeholder. */
  predicate LiteralsApart(order: seq<Sub>) {
    && (forall i :: 0 <= i < |order| ==> order[i].literal != "")
    && (forall i, j :: 0 <= i < |order| && 0 <= j < |order| ==> Apart(order[j].literal, order[i].placeholder))
  }

  /** The same, of each literal and only the placeholders already written when its turn comes. */
  predicate LaterLiteralsApart(order: seq<Sub>) {
    && (forall i :: 0 <= i < |order| ==> order[i].literal != "")
    && (forall i, j :: 0 <= i < j < |order| ==> Apart(order[j].literal, order[i].placeholder))
  }

  /** A name a `${...}` can hold. */
  predicate GoodName(name: string) {
    forall i :: 0 <= i < |name| ==> name[i] != '}'
  }

  /** NAME, of an entry whose placeholder is `${NAME}`. */
  function Name(sub: Sub): string {
    if |sub.placeholder| >= 3 then sub.placeholder[2..|sub.placeholder| - 1] else ""
  }

  /** Every placeholder is `${NAME}` for a NAME the run counts as Flux's, pending ones included. */
  predicate NamesKnown(order: seq<Sub>, known: set<string>) {
    forall i :: 0 <= i < |order| ==>
      order[i].placeholder == Var(Name(order[i])) && Name(order[i]) in known && GoodName(Name(order[i]))
  }

  /** Flux holds the entry's literal under its name: it is neither pending nor rotated since. */
  predicate Live(sub: Sub, env: map<string, string>) {
    Name(sub) in env && env[Name(sub)] == sub.literal
  }

  predicate AllLive(order: seq<Sub>, env: map<string, string>) {
    forall i :: 0 <= i < |order| ==> Live(order[i], env)
  }

  /** The entry's turn finds something to replace in `t`. */
  ghost predicate Used(t: string, order: seq<Sub>, i: nat)
    requires i < |order|
  {
    Contains(ApplyInOrder(t, order[..i]), order[i].literal)
  }

  ghost predicate UsedAreLive(t: string, order: seq<Sub>, env: map<string, string>) {
    forall i :: 0 <= i < |order| && Used(t, order, i) ==> Live(order[i], env)
  }

  /** No value Flux holds is longer than the literal it is to stand for. */
  predicate NoneLonger(order: seq<Sub>, env: map<string, string>) {
    forall i :: 0 <= i < |order| && Name(order[i]) in env ==> |env[Name(order[i])]| <= |order[i].literal|
  }

  predicate NoneShorter(order: seq<Sub>, env: map<string, string>) {
    forall i :: 0 <= i < |order| && Name(order[i]) in env ==> |env[Name(order[i])]| >= |order[i].literal|
  }

  /** A `${` at `a`, closed by the first `}` after it, at `e`. */
  predicate RefAt(t: string, a: int, e: int) {
    && 0 <= a && a + 2 <= e < |t| && t[a] == '$' && t[a + 1] == '{' && t[e] == '}'
    && (forall i :: a + 2 <= i < e ==> t[i] != '}')
  }

  predicate OpensAt(t: string, a: int) {
    0 <= a && a + 2 <= |t| && t[a] == '$' && t[a + 1] == '{'
  }

  /** Every `${` is closed, holds no other `${`, isn't right after a `$`, and names nothing Flux knows. */
  ghost predicate OnlyForeignReferences(t: string, known: set<string>) {
    forall a {:trigger OpensAt(t, a)} :: OpensAt(t, a) ==>
      && (a > 0 ==> t[a - 1] != '$')
      && exists e :: RefAt(t, a, e) && t[a + 2..e] !in known && forall b :: a < b < e ==> !OpensAt(t, b)
  }

  /** No literal stands in, or half in, a reference of `t`, or right after a `$`. */
  ghost predicate LiteralsClear(t: string, order: seq<Sub>) {
    && (forall i, a, e {:trigger order[i], RefAt(t, a, e)} :: 0 <= i < |order| && RefAt(t, a, e) ==>
         Apart(order[i].literal, t[a..e + 1]))
    && (forall i, k {:trigger OccursAt(order[i].literal, t, k)} ::
          0 <= i < |order| && k > 0 && OccursAt(order[i].literal, t, k) ==> t[k - 1] != '$')
  }
}
