/** Promoted Secrets (scripts/k8s_backup/promote.py and capture.py): values out of the manifest into
    placeholders, and a manifest written only once Flux would put exactly them back. */
module PromotedSecrets {
  import opened Sorting
  import opened Text
  import S = Substitution
  import T = SubstitutionTokens

  /** A Secret's name and its data: base64 text by key. */
  datatype Secret = Secret(namespace: string, name: string, data: map<string, string>)

  // ---- secret_placeholder --------------------------------------------------------------------------

  predicate Digit(c: char) {
    '0' <= c <= '9'
  }

  /** `re.sub(r"[^A-Za-z0-9]", "_", ...).upper()`, character by character. */
  function VarChar(c: char): char {
    if 'a' <= c <= 'z' then c - 'a' + 'A' else if Letter(c) || Digit(c) then c else '_'
  }

  function Base(s: Secret): string {
    if s.namespace <= s.name then s.name else s.namespace + "-" + s.name
  }

  function VarName(s: Secret, key: string): string {
    var text := Base(s) + "_" + key;
    var v := seq(|text|, i requires 0 <= i < |text| => VarChar(text[i]));
    if Digit(v[0]) then "_" + v else v
  }

  function Placeholder(s: Secret, key: string): string {
    S.Var(VarName(s, key))
  }

  /** Flux's variable names: a letter or underscore, then letters, digits and underscores. */
  predicate ValidName(v: string) {
    && v != "" && !Digit(v[0])
    && forall i :: 0 <= i < |v| ==> Letter(v[i]) || Digit(v[i]) || v[i] == '_'
  }

  lemma NameIsValid(s: Secret, key: string)
    ensures ValidName(VarName(s, key))
  {
    var text := Base(s) + "_" + key;
    assert text != "";
  }

  /** Two characters of a key that a variable's name doesn't tell apart. */
  predicate Alike(c: char, d: char) {
    LowerChar(c) == LowerChar(d) || (!Letter(c) && !Digit(c) && !Letter(d) && !Digit(d))
  }

  /** Two keys of a Secret give one variable exactly when they differ in nothing but the case of letters
      and which other characters stand between letters and digits. */
  lemma ShareExactly(s: Secret, a: string, b: string)
    ensures VarName(s, a) == VarName(s, b) <==> |a| == |b| && forall i :: 0 <= i < |a| ==> Alike(a[i], b[i])
  {
    var ta, tb, n := Base(s) + "_" + a, Base(s) + "_" + b, |Base(s)| + 1;
    var va := seq(|ta|, i requires 0 <= i < |ta| => VarChar(ta[i]));
    var vb := seq(|tb|, i requires 0 <= i < |tb| => VarChar(tb[i]));
    assert va[0] == vb[0];
    if VarName(s, a) == VarName(s, b) {
      assert va == vb by { if Digit(va[0]) { assert ("_" + va)[1..] == va && ("_" + vb)[1..] == vb; } }
      forall i | 0 <= i < |a| ensures Alike(a[i], b[i]) {
        assert va[n + i] == VarChar(a[i]) && vb[n + i] == VarChar(b[i]);
      }
    }
    if |a| == |b| && forall i :: 0 <= i < |a| ==> Alike(a[i], b[i]) {
      forall j | 0 <= j < |va| ensures va[j] == vb[j] {
        if j >= n { assert Alike(a[j - n], b[j - n]); }
      }
      assert va == vb;
    }
  }

  /** The name spells the Secret and its key: letters and digits as they are but upper case, an
      underscore for anything else. */
  lemma NameSpells(s: Secret, key: string)
    ensures var v, text := VarName(s, key), Base(s) + "_" + key;
      var d := |v| - |text|;
      && 0 <= d <= 1 && (d == 1 ==> v[0] == '_')
      && forall i :: 0 <= i < |text| ==>
           if Letter(text[i]) || Digit(text[i]) then
             LowerChar(v[d + i]) == LowerChar(text[i]) && !('a' <= v[d + i] <= 'z')
           else v[d + i] == '_'
  {
  }

  lemma ValidIsGood(v: string)
    requires ValidName(v)
    ensures S.GoodName(v)
  {
  }

  // ---- templated_secret ------------------------------------------------------------------------------

  /** The manifest's data and what each placeholder stands for, by variable name. */
  datatype Template = Template(data: map<string, string>, values: map<string, string>)

  function AddKey(t: Template, s: Secret, key: string): Template
    requires key in s.data
  {
    if s.data[key] == "" then t.(data := t.data[key := ""])
    else Template(t.data[key := Placeholder(s, key)], t.values[VarName(s, key) := s.data[key]])
  }

  function AddKeys(s: Secret, keys: seq<string>): Template
    requires forall k :: k in keys ==> k in s.data
  {
    if keys == [] then Template(map[], map[]) else AddKey(AddKeys(s, keys[..|keys| - 1]), s, keys[|keys| - 1])
  }

  function Keys(s: Secret): (keys: seq<string>)
    ensures forall k :: k in keys <==> k in s.data
  {
    SortedSet(s.data.Keys)
  }

  function Templated(s: Secret): Template {
    AddKeys(s, Keys(s))
  }

  /** templated_secret: the sorted keys, one by one. */
  method TemplatedSecret(s: Secret) returns (t: Template)
    ensures t == Templated(s)
  {
    var keys := Keys(s);
    var data: map<string, string>, values: map<string, string> := map[], map[];
    for i := 0 to |keys|
      invariant Template(data, values) == AddKeys(s, keys[..i])
    {
      assert keys[..i + 1][..i] == keys[..i];
      var key := keys[i];
      if s.data[key] == "" {
        data := data[key := ""];
      } else {
        data, values := data[key := Placeholder(s, key)], values[VarName(s, key) := s.data[key]];
      }
    }
    assert keys[..|keys|] == keys;
    t := Template(data, values);
  }

  /** Two keys whose values would be one variable. */
  predicate Share(s: Secret, a: string, b: string) {
    a in s.data && b in s.data && s.data[a] != "" && s.data[b] != "" && VarName(s, a) == VarName(s, b)
  }

  /** Keys that share a variable hold the same value. */
  predicate NoClash(s: Secret) {
    forall a, b :: a in s.data && b in s.data && Share(s, a, b) ==> s.data[a] == s.data[b]
  }

  lemma {:induction false} DataIs(s: Secret, keys: seq<string>, k: string)
    requires forall x :: x in keys ==> x in s.data
    ensures k in AddKeys(s, keys).data <==> k in keys
    ensures k in keys ==> AddKeys(s, keys).data[k] == if s.data[k] == "" then "" else Placeholder(s, k)
  {
    if keys != [] {
      DataIs(s, keys[..|keys| - 1], k);
      assert keys == keys[..|keys| - 1] + [keys[|keys| - 1]];
    }
  }

  /** `k` is one of the keys a variable stands for. */
  predicate Named(s: Secret, k: string, v: string) {
    k in s.data && s.data[k] != "" && VarName(s, k) == v
  }

  /** A variable stands for the value of one of the keys that share it. */
  lemma {:induction false} ValuesAre(s: Secret, keys: seq<string>, v: string)
    requires forall x :: x in keys ==> x in s.data
    ensures v in AddKeys(s, keys).values <==> exists k :: k in keys && Named(s, k, v)
    ensures v in AddKeys(s, keys).values ==>
      exists k :: k in keys && Named(s, k, v) && AddKeys(s, keys).values[v] == s.data[k]
  {
    if keys != [] {
      var more, last := keys[..|keys| - 1], keys[|keys| - 1];
      ValuesAre(s, more, v);
      assert keys == more + [last];
      assert Named(s, last, v) <==> s.data[last] != "" && VarName(s, last) == v;
    }
  }

  // ---- written, or held back ---------------------------------------------------------------------------

  /** Flux's variables hold exactly this Secret's values. */
  predicate Live(t: Template, live: map<string, string>) {
    forall v :: v in t.values ==> v in live && live[v] == t.values[v]
  }

  /** What Flux makes of a written value: foreign references escaped on the way out, `live` put
      in for every variable on the way back. */
  function Applied(text: string, live: map<string, string>, known: set<string>): Option<string> {
    S.Expand(S.Escape(text, known), live)
  }

  lemma VarApplied(v: string, live: map<string, string>, known: set<string>)
    requires v in live && v in known && S.GoodName(v)
    ensures Applied(S.Var(v), live, known) == Some(live[v])
  {
    T.EscapeOfVar(v, "", known);
    T.ExpandOfRef(v, "", live);
    assert S.Var(v) + "" == S.Var(v);
    assert S.Escape(S.Var(v), known) == S.Var(v);
    assert S.Expand("", live) == Some("") && live[v] + "" == live[v];
  }

  /** A key's written value comes back as the Secret's own. */
  predicate ComesBack(s: Secret, live: map<string, string>, known: set<string>, k: string)
    requires k in s.data
  {
    k in Templated(s).data && Applied(Templated(s).data[k], live, known) == Some(s.data[k])
  }

  /** Every value of a written manifest expands, and to the value of a key sharing its variable. */
  lemma WrittenValue(s: Secret, live: map<string, string>, known: set<string>, k: string)
    requires k in s.data && live.Keys <= known && Live(Templated(s), live)
    ensures s.data[k] == "" ==> ComesBack(s, live, known, k)
    ensures s.data[k] != "" ==>
      VarName(s, k) in live && (ComesBack(s, live, known, k) <==> live[VarName(s, k)] == s.data[k])
    ensures s.data[k] != "" ==> exists j :: Share(s, j, k) && live[VarName(s, k)] == s.data[j]
  {
    DataIs(s, Keys(s), k);
    if s.data[k] != "" {
      var v := VarName(s, k);
      assert Named(s, k, v);
      ValuesAre(s, Keys(s), v);
      NameIsValid(s, k);
      ValidIsGood(v);
      VarApplied(v, live, known);
      var j :| j in Keys(s) && Named(s, j, v) && Templated(s).values[v] == s.data[j];
      assert Share(s, j, k);
    } else {
      assert Applied("", live, known) == Some("");
    }
  }

  /** A written Secret manifest comes out of Flux as exactly the Secret's data, if and only if no two
      of its keys share a variable with different values. */
  lemma WrittenExpandsExactlyWhen(s: Secret, live: map<string, string>, known: set<string>)
    requires live.Keys <= known && Live(Templated(s), live)
    ensures Templated(s).data.Keys == s.data.Keys
    ensures (forall k :: k in s.data ==> ComesBack(s, live, known, k)) <==> NoClash(s)
  {
    forall k ensures k in Templated(s).data <==> k in s.data {
      DataIs(s, Keys(s), k);
    }
    if NoClash(s) {
      forall k | k in s.data ensures ComesBack(s, live, known, k) {
        WrittenValue(s, live, known, k);
      }
    } else {
      var a, b :| a in s.data && b in s.data && Share(s, a, b) && s.data[a] != s.data[b];
      WrittenValue(s, live, known, a);
      WrittenValue(s, live, known, b);
    }
  }

  function Values(s: Secret): map<string, string> {
    Templated(s).values
  }

  // ---- what is still to go into Key Vault -----------------------------------------------------------------

  /** `wanted`: every Secret's values, a later Secret's over an earlier's. */
  function Wanted(templates: seq<Template>): map<string, string> {
    if templates == [] then map[] else Wanted(templates[..|templates| - 1]) + templates[|templates| - 1].values
  }

  function AllTemplates(secrets: seq<Secret>): seq<Template> {
    if secrets == [] then [] else AllTemplates(secrets[..|secrets| - 1]) + [Templated(secrets[|secrets| - 1])]
  }

  /** The pending variables: wanted, and not live with that value. */
  function NotLive(wanted: map<string, string>, live: map<string, string>): map<string, string> {
    map v | v in wanted && !(v in live && live[v] == wanted[v]) :: wanted[v]
  }

  function Pending(templates: seq<Template>, live: map<string, string>): map<string, string> {
    NotLive(Wanted(templates), live)
  }

  /** The loops of _prepare_promoted_secrets, and its pending list by variable. */
  method Prepare(secrets: seq<Secret>, live: map<string, string>)
    returns (templates: seq<Template>, pending: map<string, string>)
    ensures templates == AllTemplates(secrets) && pending == Pending(templates, live)
  {
    templates := [];
    var wanted: map<string, string> := map[];
    for i := 0 to |secrets|
      invariant templates == AllTemplates(secrets[..i]) && wanted == Wanted(templates)
    {
      var t := TemplatedSecret(secrets[i]);
      OneMore(secrets, i, t);
      templates := templates + [t];
      wanted := wanted + t.values;
    }
    assert secrets[..|secrets|] == secrets;
    pending := NotLive(wanted, live);
  }

  lemma OneMore(secrets: seq<Secret>, i: nat, t: Template)
    requires i < |secrets| && t == Templated(secrets[i])
    ensures var ts := AllTemplates(secrets[..i]);
      AllTemplates(secrets[..i + 1]) == ts + [t] && Wanted(ts + [t]) == Wanted(ts) + t.values
  {
    var ts := AllTemplates(secrets[..i]);
    assert secrets[..i + 1][..i] == secrets[..i];
    assert (ts + [t])[..|ts|] == ts;
  }

  /** No two of the run's Secrets give a variable different values. */
  predicate Agreeing(templates: seq<Template>) {
    forall a, b, v :: a in templates && b in templates && v in a.values && v in b.values ==> a.values[v] == b.values[v]
  }

  lemma {:induction false} WantedIs(templates: seq<Template>, v: string)
    ensures v in Wanted(templates) <==> exists t :: t in templates && v in t.values
    ensures v in Wanted(templates) ==>
      exists t :: t in templates && v in t.values && Wanted(templates)[v] == t.values[v]
  {
    if templates != [] {
      var more, last := templates[..|templates| - 1], templates[|templates| - 1];
      WantedIs(more, v);
      assert templates == more + [last];
    }
  }

  /** None of a Secret's values is on the pending list. */
  predicate NothingPending(templates: seq<Template>, live: map<string, string>, t: Template) {
    forall v :: v in t.values ==> v !in Pending(templates, live)
  }

  /** As long as the run's Secrets agree, a Secret is held back exactly when one of its values is on
      the pending list: the operator is told every value to add. */
  lemma HeldBackExactlyWhenPending(templates: seq<Template>, live: map<string, string>, t: Template)
    requires Agreeing(templates) && t in templates
    ensures Live(t, live) <==> NothingPending(templates, live, t)
  {
    forall v | v in t.values ensures v in Wanted(templates) && Wanted(templates)[v] == t.values[v] {
      WantedIs(templates, v);
    }
  }

  /** Two Secrets that are both live agree on every variable they share. */
  lemma LiveOnesAgree(a: Template, b: Template, live: map<string, string>, v: string)
    requires Live(a, live) && Live(b, live) && v in a.values && v in b.values
    ensures a.values[v] == b.values[v]
  {
    assert live[v] == a.values[v];
  }

  /** The pending list tells the whole story, for every Secret of the run and whatever is live, if and
      only if the run's Secrets agree. Where two don't, let everything wanted be live: then nothing
      is pending, and one of the two is held back all the same. */
  lemma PendingTellsAllExactlyWhen(templates: seq<Template>)
    ensures (forall live, t :: t in templates ==> (Live(t, live) <==> NothingPending(templates, live, t))) <==>
      Agreeing(templates)
  {
    if Agreeing(templates) {
      forall live, t | t in templates ensures Live(t, live) <==> NothingPending(templates, live, t) {
        HeldBackExactlyWhenPending(templates, live, t);
      }
    } else {
      var a, b, v :| a in templates && b in templates && v in a.values && v in b.values && a.values[v] != b.values[v];
      var live := Wanted(templates);
      assert Pending(templates, live) == map[];
      assert NothingPending(templates, live, a) && NothingPending(templates, live, b);
      if Live(a, live) && Live(b, live) {
        LiveOnesAgree(a, b, live, v);
      }
    }
  }

  /** Two Secrets that don't agree: their keys differ in a character that no variable name keeps. */
  lemma DotAndDashShareAVariable(name: string, x: string, y: string)
    requires x != "" && y != "" && x != y
    ensures var a, b := Secret(name, name, map["." := x]), Secret(name, name, map["-" := y]);
      !Agreeing([Templated(a), Templated(b)])
  {
    var a, b := Secret(name, name, map["." := x]), Secret(name, name, map["-" := y]);
    OneKey(a, ".");
    OneKey(b, "-");
    SameName(a, b);
    assert VarName(a, ".") in Values(a) && Values(a)[VarName(a, ".")] == x;
    assert Values(b)[VarName(a, ".")] == y;
    var ts := [Templated(a), Templated(b)];
    assert ts[0] in ts && ts[1] in ts;
  }

  lemma SameName(a: Secret, b: Secret)
    requires a.name == b.name && a.namespace == b.namespace
    ensures VarName(a, ".") == VarName(b, "-")
  {
    var s, t := Base(a) + "_" + ".", Base(b) + "_" + "-";
    assert |s| == |t| && forall i :: 0 <= i < |s| ==> VarChar(s[i]) == VarChar(t[i]);
  }

  lemma OneKey(s: Secret, key: string)
    requires s.data.Keys == {key} && s.data[key] != ""
    ensures AddKeys(s, Keys(s)).values == map[VarName(s, key) := s.data[key]]
  {
    var keys := Keys(s);
    assert |keys| == 1 && keys[0] in keys;
    assert keys == [key] && keys[..0] == [];
  }
}
