/** What the substitution promises: Flux reads back what capture wrote, exactly when, and
    no private literal is left behind. */
module SubstitutionTheorems {
  import opened Text
  import opened Substitution
  import opened SubstitutionTokens

  // ---- the round trip ------------------------------------------------------------------

  lemma {:induction false} SwapFinds(ts: seq<Token>, l: string, name: string, j: nat)
    requires l != "" && LitsAt(ts, j, l)
    ensures Ref(name, l) in Swap(ts, l, name)
    decreases |ts|
  {
    if !LitsAt(ts, 0, l) {
      LitsShift(ts, 1, j - 1, l);
      SwapFinds(ts[1..], l, name, j - 1);
    }
  }

  lemma {:induction false} SwapNeeds(ts: seq<Token>, l: string, name: string)
    requires l != "" && Ref(name, l) in Swap(ts, l, name)
    ensures Ref(name, l) in ts || Contains(Render(ts), l)
    decreases |ts|
  {
    if LitsAt(ts, 0, l) {
      LitsShow(ts, l);
      assert Render(ts)[0..] == Render(ts);
      PrefixOccurs(Render(ts), 0, l);
    } else {
      assert Swap(ts, l, name) == [ts[0]] + Swap(ts[1..], l, name);
      if ts[0] != Ref(name, l) {
        SwapNeeds(ts[1..], l, name);
        if k :| OccursAt(l, Render(ts[1..]), k) {
          var w := |Show(ts[0])|;
          assert Render(ts)[w..] == Render(ts[1..]);
          OccursInSuffix(l, Render(ts), w, k);
        }
      }
    }
  }

  lemma {:induction false} SwapKeepsRefs(ts: seq<Token>, l: string, name: string, r: Token)
    requires l != "" && r in ts && r.Ref?
    ensures r in Swap(ts, l, name)
    decreases |ts|
  {
    if LitsAt(ts, 0, l) {
      var k :| 0 <= k < |ts| && ts[k] == r;
      forall q | 0 <= q < |l| ensures ts[q].Lit? { assert ts[0 + q] == Lit(l[q]); }
      assert ts[|l|..][k - |l|] == r;
      SwapKeepsRefs(ts[|l|..], l, name, r);
    } else if ts[0] != r {
      SwapKeepsRefs(ts[1..], l, name, r);
    }
  }

  function RefOf(sub: Sub): Token {
    Ref(Name(sub), sub.literal)
  }

  /** `r` is written for an entry that finds something to replace. */
  ghost predicate UsedAs(t: string, order: seq<Sub>, r: Token) {
    exists i :: 0 <= i < |order| && r == RefOf(order[i]) && Used(t, order, i)
  }

  lemma UsedLater(t: string, order: seq<Sub>, i: nat)
    requires i + 1 < |order|
    ensures Used(t, order, i + 1) <==> Used(Replace(t, order[0].literal, order[0].placeholder), order[1..], i)
  {
    assert order[..i + 1][1..] == order[1..][..i];
  }

  lemma UsedFirst(t: string, order: seq<Sub>)
    requires order != []
    ensures Used(t, order, 0) <==> Contains(t, order[0].literal)
  {
    assert order[..0] == [];
  }

  lemma NextStage(ts: seq<Token>, order: seq<Sub>, known: set<string>) returns (next: seq<Token>)
    requires order != [] && Sound(ts) && TokensOk(ts, known)
    requires LaterLiteralsApart(order) && NamesKnown(order, known)
    requires forall i :: 0 <= i < |order| ==> TokensApart(ts, order[i].literal) && DollarFree(ts, order[i].literal)
    ensures next == Swap(ts, order[0].literal, Name(order[0]))
    ensures Sound(next) && TokensOk(next, known) && LaterLiteralsApart(order[1..]) && NamesKnown(order[1..], known)
    ensures Render(next) == Replace(Render(ts), order[0].literal, order[0].placeholder) && Means(next) == Means(ts)
    ensures forall i :: 1 <= i < |order| ==> TokensApart(next, order[i].literal) && DollarFree(next, order[i].literal)
  {
    var l, name := order[0].literal, Name(order[0]);
    next := Swap(ts, l, name);
    ReplaceIsSwap(ts, l, name);
    SwapKeepsMeaning(ts, l, name);
    SwapKeepsSound(ts, l, name);
    SwapTokens(ts, l, name);
    var rest := order[1..];
    assert forall i :: 0 <= i < |rest| ==> rest[i] == order[i + 1];
    forall i | 1 <= i < |order| ensures TokensApart(next, order[i].literal) && DollarFree(next, order[i].literal) {
      SwapKeepsDollarFree(ts, l, name, order[i].literal);
      assert Apart(order[i].literal, order[0].placeholder);
      assert Show(Ref(name, l)) == order[0].placeholder;
      assert TokensApart(ts, order[i].literal);
    }
  }

  /** `out` holds the references of `ts` and, besides them, just those of the entries used. */
  ghost predicate RefsGrow(ts: seq<Token>, order: seq<Sub>, out: seq<Token>) {
    && (forall r :: r in ts && r.Ref? ==> r in out)
    && (forall r :: r in out && r.Ref? ==> r in ts || UsedAs(Render(ts), order, r))
    && (forall i :: 0 <= i < |order| && Used(Render(ts), order, i) ==> RefOf(order[i]) in out)
  }

  lemma RefsOfStage(ts: seq<Token>, order: seq<Sub>)
    requires order != [] && order[0].literal != "" && TokensApart(ts, order[0].literal)
    ensures var next := Swap(ts, order[0].literal, Name(order[0]));
      && (forall r :: r in ts && r.Ref? ==> r in next)
      && (forall r :: r in next && r.Ref? ==> r in ts || (r == RefOf(order[0]) && Used(Render(ts), order, 0)))
      && (Used(Render(ts), order, 0) ==> RefOf(order[0]) in next)
  {
    var l, name := order[0].literal, Name(order[0]);
    var next := Swap(ts, l, name);
    UsedFirst(Render(ts), order);
    SwapTokens(ts, l, name);
    forall r | r in ts && r.Ref? ensures r in next { SwapKeepsRefs(ts, l, name, r); }
    if RefOf(order[0]) in next { SwapNeeds(ts, l, name); }
    if k :| OccursAt(l, Render(ts), k) {
      var j := SeenIsLits(ts, l, k);
      SwapFinds(ts, l, name, j);
    }
  }

  lemma RefsGrowOn(ts: seq<Token>, order: seq<Sub>, next: seq<Token>, out: seq<Token>)
    requires order != [] && order[0].literal != "" && TokensApart(ts, order[0].literal)
    requires next == Swap(ts, order[0].literal, Name(order[0]))
    requires Render(next) == Replace(Render(ts), order[0].literal, order[0].placeholder)
    requires RefsGrow(next, order[1..], out)
    ensures RefsGrow(ts, order, out)
  {
    RefsOfStage(ts, order);
    var rest, t := order[1..], Render(ts);
    forall i | 0 <= i < |order| && Used(t, order, i) ensures RefOf(order[i]) in out {
      if i > 0 {
        UsedLater(t, order, i - 1);
        assert RefOf(rest[i - 1]) in out;
      }
    }
    forall r | r in out && r.Ref? && r !in ts ensures UsedAs(t, order, r) {
      if r in next {
        assert r == RefOf(order[0]) && Used(t, order, 0);
      } else {
        var i :| 0 <= i < |rest| && r == RefOf(rest[i]) && Used(Render(next), rest, i);
        UsedLater(t, order, i);
        assert r == RefOf(order[i + 1]);
      }
    }
  }

  /** The tokens after every entry has had its turn: the same meaning, and a reference for
      each entry that had something to replace. */
  lemma {:induction false} Stages(ts: seq<Token>, order: seq<Sub>, known: set<string>) returns (out: seq<Token>)
    requires Sound(ts) && TokensOk(ts, known)
    requires LaterLiteralsApart(order) && NamesKnown(order, known)
    requires forall i :: 0 <= i < |order| ==> TokensApart(ts, order[i].literal) && DollarFree(ts, order[i].literal)
    ensures Sound(out) && TokensOk(out, known)
    ensures Render(out) == ApplyInOrder(Render(ts), order) && Means(out) == Means(ts)
    ensures RefsGrow(ts, order, out)
    decreases |order|
  {
    if order == [] {
      out := ts;
    } else {
      var next := NextStage(ts, order, known);
      var rest := order[1..];
      forall i | 0 <= i < |rest| ensures TokensApart(next, rest[i].literal) && DollarFree(next, rest[i].literal) {
        assert rest[i] == order[i + 1];
      }
      out := Stages(next, rest, known);
      RefsGrowOn(ts, order, next, out);
    }
  }

  /** The captured text as tokens: Flux's reading of it is the reading of the tokens, they
      stand for the text as it was, and their references are the entries used. */
  lemma Captured(t: string, subs: seq<Sub>, known: set<string>, env: map<string, string>) returns (out: seq<Token>)
    requires OnlyForeignReferences(t, known) && LiteralsClear(t, Order(subs))
    requires LaterLiteralsApart(Order(subs)) && NamesKnown(Order(subs), known)
    ensures Expand(Escape(ApplyText(t, subs), known), env) == Reads(out, env) && Means(out) == t
    ensures forall r :: r in out && r.Ref? ==> UsedAs(t, Order(subs), r)
    ensures forall i :: 0 <= i < |Order(subs)| && Used(t, Order(subs), i) ==> RefOf(Order(subs)[i]) in out
  {
    var order, ts := Order(subs), Tokens(t);
    TokensAreTheText(t);
    TokensOfCleanText(t, known);
    TokensHoldNoRef(t);
    forall i | 0 <= i < |order| ensures TokensApart(ts, order[i].literal) && DollarFree(ts, order[i].literal) {
      var l := order[i].literal;
      forall k | k > 0 && OccursAt(l, t, k) ensures t[k - 1] != '$' { assert OccursAt(order[i].literal, t, k); }
      TokensNeverAfterDollar(t, l);
      forall a, e | RefAt(t, a, e) ensures Apart(l, t[a..e + 1]) { assert Apart(order[i].literal, t[a..e + 1]); }
      TokensClear(t, l);
    }
    out := Stages(ts, order, known);
    TokensExpand(out, false, known, env);
  }

  lemma {:induction false} TokensHoldNoRef(t: string)
    ensures forall r :: r in Tokens(t) ==> !r.Ref?
    decreases |t|
  {
    if t == "" {
    } else if "${" <= t && Find(t, '}', 2) < |t| {
      TokensHoldNoRef(t[Find(t, '}', 2) + 1..]);
    } else {
      TokensHoldNoRef(t[1..]);
    }
  }

  predicate RefLive(r: Token, env: map<string, string>) {
    r.Ref? ==> r.name in env && env[r.name] == r.literal
  }

  lemma {:induction false} ReadsWhen(ts: seq<Token>, env: map<string, string>)
    ensures Reads(ts, env).Some? <==> forall r :: r in ts && r.Ref? ==> r.name in env
    ensures (forall r :: r in ts ==> RefLive(r, env)) ==> Reads(ts, env) == Some(Means(ts))
  {
    if ts != [] {
      ReadsWhen(ts[1..], env);
      assert ts == [ts[0]] + ts[1..];
      if forall r :: r in ts ==> RefLive(r, env) {
        assert RefLive(ts[0], env);
      }
      if Reads(ts, env).Some? {
        forall r | r in ts && r.Ref? ensures r.name in env { assert r == ts[0] || r in ts[1..]; }
      } else {
        assert Reading(ts[0], env) == None || Reads(ts[1..], env) == None;
      }
    }
  }

  predicate RefsShorter(ts: seq<Token>, env: map<string, string>) {
    forall r :: r in ts && r.Ref? && r.name in env ==> |env[r.name]| <= |r.literal|
  }

  predicate RefsLonger(ts: seq<Token>, env: map<string, string>) {
    forall r :: r in ts && r.Ref? && r.name in env ==> |env[r.name]| >= |r.literal|
  }

  /** Values that are all no longer, or all no shorter, than what they stand for spell the
      old text only if each is right: none can make up for another. */
  lemma {:induction false} NoneMakesUp(ts: seq<Token>, env: map<string, string>)
    requires Reads(ts, env).Some?
    ensures RefsShorter(ts, env) ==> |Reads(ts, env).value| <= |Means(ts)|
    ensures RefsLonger(ts, env) ==> |Reads(ts, env).value| >= |Means(ts)|
    ensures (RefsShorter(ts, env) || RefsLonger(ts, env)) && Reads(ts, env) == Some(Means(ts)) ==>
      forall r :: r in ts ==> RefLive(r, env)
  {
    if ts != [] {
      var tl := ts[1..];
      NoneMakesUp(tl, env);
      assert ts == [ts[0]] + tl;
      assert RefsShorter(ts, env) ==> RefsShorter(tl, env);
      assert RefsLonger(ts, env) ==> RefsLonger(tl, env);
      if (RefsShorter(ts, env) || RefsLonger(ts, env)) && Reads(ts, env) == Some(Means(ts)) {
        SameHeads(Reading(ts[0], env).value, Reads(tl, env).value, Meaning(ts[0]), Means(tl));
      }
    }
  }

  lemma SameHeads(a: string, x: string, b: string, y: string)
    requires a + x == b + y && |a| == |b|
    ensures a == b && x == y
  {
    assert a == (a + x)[..|a|] && b == (b + y)[..|b|];
    assert x == (a + x)[|a|..] && y == (b + y)[|b|..];
  }

  /** What capture writes, Flux reads back: replacing, then escaping, then Flux's own
      substitution is the identity, whatever literals the text holds and however they
      overlap, when every entry the text uses is live. A pending one makes Flux refuse the
      text. And as long as the values of rotated entries don't differ in both directions,
      the text comes back only then. */
  lemma RoundTripWhileLive(t: string, subs: seq<Sub>, known: set<string>, env: map<string, string>)
    requires OnlyForeignReferences(t, known) && LiteralsClear(t, Order(subs))
    requires LaterLiteralsApart(Order(subs)) && NamesKnown(Order(subs), known)
    ensures var back, order := Expand(Escape(ApplyText(t, subs), known), env), Order(subs);
      && (back.Some? <==> forall i :: 0 <= i < |order| && Used(t, order, i) ==> Name(order[i]) in env)
      && (UsedAreLive(t, order, env) ==> back == Some(t))
      && (NoneLonger(order, env) || NoneShorter(order, env) ==> (back == Some(t) <==> UsedAreLive(t, order, env)))
  {
    var order := Order(subs);
    var out := Captured(t, subs, known, env);
    ReadsWhen(out, env);
    forall r | r in out && r.Ref? ensures UsedAs(t, order, r) {}
    if Reads(out, env).Some? {
      NoneMakesUp(out, env);
      forall i | 0 <= i < |order| && Used(t, order, i) ensures Name(order[i]) in env { assert RefOf(order[i]) in out; }
    } else {
      var r :| r in out && r.Ref? && r.name !in env;
      var i :| 0 <= i < |order| && r == RefOf(order[i]) && Used(t, order, i);
    }
    UsedAreTheRefs(t, order, env, out);
  }

  lemma UsedAreTheRefs(t: string, order: seq<Sub>, env: map<string, string>, out: seq<Token>)
    requires forall r :: r in out && r.Ref? ==> UsedAs(t, order, r)
    requires forall i :: 0 <= i < |order| && Used(t, order, i) ==> RefOf(order[i]) in out
    ensures UsedAreLive(t, order, env) <==> forall r :: r in out ==> RefLive(r, env)
    ensures NoneLonger(order, env) ==> RefsShorter(out, env)
    ensures NoneShorter(order, env) ==> RefsLonger(out, env)
  {
    if UsedAreLive(t, order, env) {
      forall r | r in out ensures RefLive(r, env) {
        if r.Ref? { var i :| 0 <= i < |order| && r == RefOf(order[i]) && Used(t, order, i); }
      }
    }
    if forall r :: r in out ==> RefLive(r, env) {
      forall i | 0 <= i < |order| && Used(t, order, i) ensures Live(order[i], env) {
        assert RefLive(RefOf(order[i]), env);
      }
    }
  }

  /** The plain case: everything capture replaces is already Flux's. */
  lemma RoundTrip(t: string, subs: seq<Sub>, known: set<string>, env: map<string, string>)
    requires OnlyForeignReferences(t, known) && LiteralsClear(t, Order(subs))
    requires LaterLiteralsApart(Order(subs)) && NamesKnown(Order(subs), known) && AllLive(Order(subs), env)
    ensures Expand(Escape(ApplyText(t, subs), known), env) == Some(t)
  {
    RoundTripWhileLive(t, subs, known, env);
  }

  /** Two rotated values, one shorter and one longer than its literal, can spell the old text. */
  lemma TwoRotatedValuesCancel()
    ensures var subs := [Sub("ab", "${A}", true), Sub("c", "${B}", true)];
      var known, env := {"A", "B"}, map["A" := "a", "B" := "bc"];
      !Live(subs[0], env) && !Live(subs[1], env) &&
      ApplyText("abc", subs) == "${A}${B}" && Expand(Escape("${A}${B}", known), env) == Some("abc")
  {
    var subs := [Sub("ab", "${A}", true), Sub("c", "${B}", true)];
    var env := map["A" := "a", "B" := "bc"];
    assert "${A}"[2..3] == ['A'] && "${B}"[2..3] == ['B'];
    assert !Live(subs[0], env) && !Live(subs[1], env);
    assert Replaceable(subs) == subs by { assert Replaceable(subs[1..]) == subs[1..]; }
    assert Order(subs) == subs by { assert LongestFirst(subs[1..]) == subs[1..]; }
    CancelIsWritten(subs);
    CancelIsRead(env);
  }

  lemma CancelIsWritten(subs: seq<Sub>)
    requires subs == [Sub("ab", "${A}", true), Sub("c", "${B}", true)]
    ensures ApplyInOrder("abc", subs) == "${A}${B}"
  {
    var rest := subs[1..];
    assert rest[0] == subs[1] && rest[1..] == [];
    FirstOfTwo();
    SecondOfTwo();
    assert ApplyInOrder("${A}c", rest) == "${A}${B}";
  }

  lemma FirstOfTwo()
    ensures Replace("abc", "ab", "${A}") == "${A}c"
  {
    assert "ab" <= "abc" && "abc"[2..] == "c" && "c"[1..] == "";
    assert Replace("c", "ab", "${A}") == "c";
    assert Replace("abc", "ab", "${A}") == "${A}" + Replace("c", "ab", "${A}");
  }

  lemma SecondOfTwo()
    ensures Replace("${A}c", "c", "${B}") == "${A}${B}"
  {
    var p := "${A}";
    forall k ensures !OccursAt("c", p, k) {
      if 0 <= k < |p| { assert p[k..k + 1] == [p[k]]; }
    }
    AppendedIsReplaced(p, "c", "${B}");
    assert p + "c" == "${A}c" && p + "${B}" == "${A}${B}";
  }

  /** One character more, and that the one to find. */
  lemma {:induction false} AppendedIsReplaced(s: string, what: string, into: string)
    requires |what| == 1 && !Contains(s, what)
    ensures Replace(s + what, what, into) == s + into
    decreases |s|
  {
    if s == "" {
      assert s + what == what && what <= what && what[1..] == "";
      assert into + "" == into && s + into == into;
    } else {
      AbsentInTail(s, what);
      AppendedIsReplaced(s[1..], what, into);
      assert (s + what)[1..] == s[1..] + what;
      NotAtHead(s, what);
      assert [s[0]] + (s[1..] + into) == s + into;
    }
  }

  lemma NotAtHead(s: string, what: string)
    requires |what| == 1 && s != "" && !(what <= s)
    ensures !(what <= s + what)
  {
    assert (s + what)[0] == s[0];
  }

  lemma CancelIsRead(env: map<string, string>)
    requires env == map["A" := "a", "B" := "bc"]
    ensures Expand(Escape("${A}${B}", {"A", "B"}), env) == Some("abc")
  {
    assert Var("A") == "${A}" && Var("B") == "${B}";
    assert "${A}${B}" == Var("A") + Var("B");
    TwoVars("A", "B", {"A", "B"}, env);
    assert "a" + "bc" == "abc";
  }

  lemma TwoVars(m: string, n: string, known: set<string>, env: map<string, string>)
    requires GoodName(m) && GoodName(n) && m in known && n in known && m in env && n in env
    ensures Expand(Escape(Var(m) + Var(n), known), env) == Some(env[m] + env[n])
  {
    TwoVarsEscaped(m, n, known);
    TwoVarsRead(m, n, known, env);
  }

  lemma TwoVarsEscaped(m: string, n: string, known: set<string>)
    requires GoodName(m) && GoodName(n) && m in known && n in known
    ensures Escape(Var(m) + Var(n), known) == Var(m) + Var(n)
  {
    var s := Var(n);
    EscapeOfVar(m, s, known);
    EscapeOfVar(n, "", known);
    assert s + "" == s;
    assert "" + Var(m) + s == Var(m) + s;
  }

  lemma TwoVarsRead(m: string, n: string, known: set<string>, env: map<string, string>)
    requires GoodName(m) && GoodName(n) && n in known && m in env && n in env
    ensures Expand(Var(m) + Var(n), env) == Some(env[m] + env[n])
  {
    ExpandOfRef(m, Var(n), env);
    VarAlone(n, known, env);
  }

  // ---- plain literals: when the hypothesis on literals is met --------------------------

  predicate Plain(s: string) {
    forall i :: 0 <= i < |s| ==> s[i] != '$' && s[i] != '{' && s[i] != '}'
  }

  lemma OverlapChar(l: string, p: string, d: int, i: nat)
    requires Overlaps(l, p, d) && i < |l| && 0 <= d + i < |p|
    ensures l[i] == p[d + i]
  {
  }

  /** A literal with none of `$`, `{`, `}` is apart from a placeholder exactly when it
      doesn't occur in it. */
  lemma PlainApart(l: string, n: string)
    requires l != "" && Plain(l)
    ensures Apart(l, Var(n)) <==> !Contains(Var(n), l)
  {
    var p := Var(n);
    if k :| OccursAt(l, p, k) {
      forall i | 0 <= i < |l| && 0 <= k + i < |p| ensures l[i] == p[k + i] { assert p[k..k + |l|][i] == p[k + i]; }
      assert Overlaps(l, p, k);
    }
    if d :| -|l| < d < |p| && Overlaps(l, p, d) {
      assert d >= 2 by {
        if d <= 0 { OverlapChar(l, p, d, 0 - d); }
        if d == 1 { OverlapChar(l, p, d, 0); }
      }
      assert d + |l| <= |p| - 1 by {
        if d + |l| > |p| - 1 { OverlapChar(l, p, d, |p| - 1 - d); }
      }
      assert forall i :: 0 <= i < |l| ==> p[d..d + |l|][i] == p[d + i] == l[i];
      assert OccursAt(l, p, d);
    }
  }

  lemma PrefixPast(a: string, c: char, b: string, l: string)
    requires l <= a + [c] + b && |l| > |a|
    ensures c in l
  {
    assert l[|a|] == (a + [c] + b)[|a|];
  }

  /** A character the literal doesn't hold splits the replacing in two. */
  lemma {:induction false} ReplaceSplits(a: string, c: char, b: string, l: string, into: string)
    requires l != "" && c !in l
    ensures Replace(a + [c] + b, l, into) == Replace(a, l, into) + [c] + Replace(b, l, into)
    decreases |a|
  {
    var s := a + [c] + b;
    if l <= s {
      if |l| > |a| { PrefixPast(a, c, b, l); }
      assert l == s[..|l|] == a[..|l|];
    }
    if a == "" {
      assert s[1..] == b;
    } else if l <= s {
      assert a[|l|..] + [c] + b == s[|l|..];
      ReplaceSplits(a[|l|..], c, b, l, into);
      Concat4(into, Replace(a[|l|..], l, into), [c], Replace(b, l, into));
    } else {
      assert l <= a ==> l <= s;
      assert a[1..] + [c] + b == s[1..];
      ReplaceSplits(a[1..], c, b, l, into);
      Concat4([a[0]], Replace(a[1..], l, into), [c], Replace(b, l, into));
    }
  }

  lemma Concat4(a: string, b: string, c: string, d: string)
    ensures a + (b + c + d) == (a + b) + c + d
  {
  }

  /** Opens a reference before it closes one. */
  ghost predicate Opened(s: string) {
    exists k :: OpensAt(s, k) && GoodName(s[..k])
  }

  lemma OccursInSuffix(l: string, s: string, j: nat, k: nat)
    requires j <= |s|
    ensures OccursAt(l, s[j..], k) <==> OccursAt(l, s, j + k)
  {
    if j + k + |l| <= |s| { assert s[j..][k..k + |l|] == s[j + k..j + k + |l|]; }
  }

  lemma GoodNameTail(s: string, k: nat)
    requires 1 <= k <= |s|
    ensures GoodName(s[..k]) <==> s[0] != '}' && GoodName(s[1..][..k - 1])
  {
    var u, v := s[..k], s[1..][..k - 1];
    assert u == [s[0]] + v;
    if GoodName(u) {
      assert u[0] != '}';
      forall i | 0 <= i < |v| ensures v[i] != '}' { assert u[i + 1] != '}'; }
    }
  }

  /** A found literal is replaced. */
  lemma {:induction false} ReplacePuts(s: string, l: string, n: string, k: nat)
    requires l != "" && OccursAt(l, s, k) && GoodName(s[..k])
    ensures Opened(Replace(s, l, Var(n)))
    decreases |s|
  {
    var r := Replace(s, l, Var(n));
    if l <= s {
      assert OpensAt(r, 0) && GoodName(r[..0]);
    } else {
      assert s[0..] == s;
      PrefixOccurs(s, 0, l);
      OccursInSuffix(l, s, 1, k - 1);
      GoodNameTail(s, k);
      ReplacePuts(s[1..], l, n, k - 1);
      var j :| OpensAt(r[1..], j) && GoodName(r[1..][..j]);
      GoodNameTail(r, j + 1);
      assert OpensAt(r, j + 1) && GoodName(r[..j + 1]);
    }
  }

  lemma AbsentInTail(s: string, l: string)
    requires s != "" && !Contains(s, l)
    ensures !(l <= s) && !Contains(s[1..], l)
  {
    assert s[0..] == s;
    PrefixOccurs(s, 0, l);
    assert !OccursAt(l, s, 0);
    if k :| OccursAt(l, s[1..], k) {
      OccursInSuffix(l, s, 1, k);
    }
  }

  lemma {:induction false} ReplaceAbsent(s: string, l: string, into: string)
    requires l != "" && !Contains(s, l)
    ensures Replace(s, l, into) == s
    decreases |s|
  {
    if s != "" {
      AbsentInTail(s, l);
      ReplaceAbsent(s[1..], l, into);
      assert [s[0]] + s[1..] == s;
    }
  }

  lemma ReplaceKeepsOpened(s: string, l: string, n: string)
    requires l != "" && Plain(l) && Opened(s)
    ensures Opened(Replace(s, l, Var(n)))
  {
    var k :| OpensAt(s, k) && GoodName(s[..k]);
    if i :| OccursAt(l, s[..k], i) {
      OccursInPrefix(l, s, k, i);
      ReplacePuts(s, l, n, i);
    } else {
      OpensUntouched(s[..k], s[k + 2..], l, n);
      assert s == s[..k] + "$" + ("{" + s[k + 2..]);
    }
  }

  lemma OccursInPrefix(l: string, s: string, k: nat, i: nat)
    requires k <= |s| && OccursAt(l, s[..k], i) && GoodName(s[..k])
    ensures OccursAt(l, s, i) && GoodName(s[..i])
  {
    assert s[..k][i..i + |l|] == s[i..i + |l|];
    forall q | 0 <= q < i ensures s[..i][q] != '}' { assert s[..k][q] == s[q]; }
  }

  lemma OpensUntouched(a: string, b: string, l: string, n: string)
    requires l != "" && Plain(l) && GoodName(a) && !Contains(a, l)
    ensures Opened(Replace(a + "$" + ("{" + b), l, Var(n)))
  {
    ReplaceAbsent(a, l, Var(n));
    ReplaceSplits(a, '$', "{" + b, l, Var(n));
    ReplaceHead('{', b, l, Var(n));
    OpenedAt(a, Replace(b, l, Var(n)));
  }

  lemma OpenedAt(a: string, y: string)
    requires GoodName(a)
    ensures Opened(a + "$" + ("{" + y))
  {
    var r := a + "$" + ("{" + y);
    assert r[..|a|] == a;
    assert OpensAt(r, |a|);
  }

  lemma ReplaceHead(c: char, b: string, l: string, into: string)
    requires l != "" && c !in l
    ensures Replace([c] + b, l, into) == [c] + Replace(b, l, into)
  {
    assert ([c] + b)[1..] == b;
    if l <= [c] + b { HeadIn([c] + b, l); }
  }

  lemma HeadIn(s: string, l: string)
    requires l != "" && l <= s
    ensures s[0] in l
  {
    assert l[0] == s[0];
  }

  lemma ReplaceInVar(x: string, l: string, into: string)
    requires l != "" && Plain(l)
    ensures Replace(Var(x), l, into) == Var(Replace(x, l, into))
  {
    ReplaceSplits(x, '}', "", l, into);
    assert x + "}" + "" == x + "}";
    var y := Replace(x, l, into);
    assert y + "}" + "" == y + "}";
    ReplaceHead('{', x + "}", l, into);
    ReplaceHead('$', "{" + (x + "}"), l, into);
    VarParts(x);
    VarParts(y);
  }

  lemma VarParts(x: string)
    ensures Var(x) == "$" + ("{" + (x + "}"))
  {
  }

  predicate PlainEntries(order: seq<Sub>) {
    forall i :: 0 <= i < |order| ==> order[i].literal != "" && Plain(order[i].literal)
  }

  ghost predicate Named(placeholder: string) {
    exists n :: Plain(n) && placeholder == Var(n)
  }

  ghost predicate NamedEntries(order: seq<Sub>) {
    forall i :: 0 <= i < |order| ==> Named(order[i].placeholder)
  }

  lemma {:induction false} StaysOpened(x: string, order: seq<Sub>) returns (y: string)
    requires PlainEntries(order) && NamedEntries(order) && Opened(x)
    ensures Opened(y) && ApplyInOrder(Var(x), order) == Var(y)
    decreases |order|
  {
    if order == [] {
      y := x;
    } else {
      var n :| Plain(n) && order[0].placeholder == Var(n);
      ReplaceKeepsOpened(x, order[0].literal, n);
      ReplaceInVar(x, order[0].literal, Var(n));
      assert forall i :: 0 <= i < |order[1..]| ==> order[1..][i] == order[i + 1];
      y := StaysOpened(Replace(x, order[0].literal, Var(n)), order[1..]);
    }
  }

  lemma PlainInside(l: string, x: string, k: nat)
    requires l != "" && Plain(l) && OccursAt(l, Var(x), k)
    ensures k >= 2 && OccursAt(l, x, k - 2)
  {
    var p := Var(x);
    if k < 2 { OccursChar(l, p, k, 0); }
    if k + |l| == |p| { OccursChar(l, p, k, |l| - 1); }
    assert x[k - 2..k - 2 + |l|] == p[k..k + |l|];
  }

  lemma OccursChar(l: string, s: string, k: nat, i: nat)
    requires OccursAt(l, s, k) && i < |l|
    ensures l[i] == s[k + i]
  {
    assert s[k..k + |l|][i] == s[k + i];
  }

  /** A placeholder a later literal occurs in ends with another reference inside it. */
  lemma {:induction false} PlaceholderBroken(x: string, order: seq<Sub>, j: nat) returns (y: string)
    requires PlainEntries(order) && NamedEntries(order) && Plain(x)
    requires j < |order| && Contains(Var(x), order[j].literal)
    ensures Opened(y) && ApplyInOrder(Var(x), order) == Var(y)
    decreases |order|
  {
    var l, rest := order[0].literal, order[1..];
    assert forall i :: 0 <= i < |rest| ==> rest[i] == order[i + 1];
    if Contains(Var(x), l) {
      var z := BrokenHere(x, order[0]);
      y := StaysOpened(z, rest);
    } else {
      ReplaceAbsent(Var(x), l, order[0].placeholder);
      y := PlaceholderBroken(x, rest, j - 1);
    }
  }

  lemma BrokenHere(x: string, sub: Sub) returns (y: string)
    requires sub.literal != "" && Plain(sub.literal) && Named(sub.placeholder) && Plain(x) &&
      Contains(Var(x), sub.literal)
    ensures Opened(y) && Replace(Var(x), sub.literal, sub.placeholder) == Var(y)
  {
    var l := sub.literal;
    var n :| Plain(n) && sub.placeholder == Var(n);
    ReplaceInVar(x, l, Var(n));
    OpenedInside(x, l, n);
    y := Replace(x, l, Var(n));
  }

  lemma OpenedInside(x: string, l: string, n: string)
    requires l != "" && Plain(l) && Plain(x) && Contains(Var(x), l)
    ensures Opened(Replace(x, l, Var(n)))
  {
    var k: nat :| OccursAt(l, Var(x), k);
    PlainInside(l, x, k);
    ReplacePuts(x, l, n, k - 2);
  }

  lemma BrokenIsNotPlain(y: string, known: set<string>, env: map<string, string>, t: string)
    requires Opened(y) && Plain(t) && forall n :: n in known ==> Plain(n)
    ensures Expand(Escape(Var(y), known), env) != Some(t)
  {
    var rest := BrokenIsEscaped(y, known);
    var out := Escape(Var(y), known);
    match Expand(out[3..], env)
    case None =>
    case Some(v) => assert ("${" + v)[0] == '$';
  }

  /** The outer reference isn't one capture knows, so it is escaped. */
  lemma BrokenIsEscaped(y: string, known: set<string>) returns (rest: string)
    requires Opened(y) && forall n :: n in known ==> Plain(n)
    ensures Escape(Var(y), known) == "$" + rest && "$${" <= "$" + rest
  {
    var s := Var(y);
    Opens(s);
    var e := Find(s, '}', 2);
    assert s[|s| - 1] == '}';
    OuterNameIsNotPlain(y, e);
    rest := s[..e + 1] + EscapeFrom(s[e + 1..], false, known);
    assert rest[0] == '$' && rest[1] == '{';
    OpensEscaped("$" + rest);
  }

  lemma OuterNameIsNotPlain(y: string, e: nat)
    requires Opened(y) && e == Find(Var(y), '}', 2) < |Var(y)|
    ensures !Plain(Var(y)[2..e])
  {
    var s := Var(y);
    var k :| OpensAt(y, k) && GoodName(y[..k]);
    assert forall i :: 2 <= i < k + 2 ==> s[i] == y[i - 2] == y[..k][i - 2];
    assert s[k + 2] == y[k] && s[k + 3] == y[k + 1];
    assert s[2..e][k] == y[k];
  }

  // ---- exactly when ---------------------------------------------------------------------

  predicate DistinctLiterals(order: seq<Sub>) {
    forall i, j :: 0 <= i < j < |order| ==> order[i].literal != order[j].literal
  }

  predicate ByLength(order: seq<Sub>) {
    forall i, j :: 0 <= i < j < |order| ==> |order[i].literal| >= |order[j].literal|
  }

  /** The round trip for every text whose references and literals are placed well. */
  ghost predicate RoundTripsEverywhere(order: seq<Sub>, known: set<string>, env: map<string, string>) {
    forall t :: OnlyForeignReferences(t, known) && LiteralsClear(t, order) ==>
      Expand(Escape(ApplyInOrder(t, order), known), env) == Some(t)
  }

  /** A literal on its own, once the longer ones have passed over it. */
  lemma {:induction false} LongerLiteralsPass(order: seq<Sub>, i: nat)
    requires i < |order| && DistinctLiterals(order) && ByLength(order)
    requires forall j :: 0 <= j <= i ==> order[j].literal != ""
    ensures ApplyInOrder(order[i].literal, order) == ApplyInOrder(order[i].placeholder, order[i + 1..])
    decreases i
  {
    var l := order[i].literal;
    if i == 0 {
      assert l <= l && l[|l|..] == "";
      assert Replace(l, l, order[0].placeholder) == order[0].placeholder + "";
      assert order[0].placeholder + "" == order[0].placeholder;
    } else {
      forall k ensures !OccursAt(order[0].literal, l, k) {
        if 0 <= k <= |l| - |order[0].literal| { assert l[k..k + |order[0].literal|] == l; }
      }
      ReplaceAbsent(l, order[0].literal, order[0].placeholder);
      var rest := order[1..];
      assert forall j :: 0 <= j < |rest| ==> rest[j] == order[j + 1];
      LongerLiteralsPass(rest, i - 1);
      assert rest[i..] == order[i + 1..];
    }
  }

  lemma LiteralAloneIsClear(order: seq<Sub>, l: string, known: set<string>)
    requires Plain(l)
    ensures OnlyForeignReferences(l, known) && LiteralsClear(l, order)
  {
  }

  /** With plain, distinct literals, the round trip holds of every well-placed text exactly
      when no literal occurs in the placeholder of one that goes before it, and none is
      still pending or rotated since. */
  lemma RoundTripExactlyWhen(subs: seq<Sub>, known: set<string>, env: map<string, string>)
    requires PlainEntries(Order(subs)) && DistinctLiterals(Order(subs)) && NamesKnown(Order(subs), known)
    requires forall n :: n in known ==> Plain(n)
    ensures RoundTripsEverywhere(Order(subs), known, env) <==> NoneNested(Order(subs)) && AllLive(Order(subs), env)
  {
    var order := Order(subs);
    LongestFirstSorted(Replaceable(subs));
    if !NoneNested(order) {
      var i, j :| 0 <= i < j < |order| && Contains(order[i].placeholder, order[j].literal);
      RoundTripFails(order, known, env, i, j);
    } else if !AllLive(order, env) {
      var i :| 0 <= i < |order| && !Live(order[i], env);
      LiteralOnItsOwn(order, known, env, i);
    } else {
      forall i, j | 0 <= i < j < |order| ensures Apart(order[j].literal, order[i].placeholder) {
        PlainApart(order[j].literal, Name(order[i]));
      }
      forall t | OnlyForeignReferences(t, known) && LiteralsClear(t, order)
        ensures Expand(Escape(ApplyInOrder(t, order), known), env) == Some(t)
      {
        RoundTrip(t, subs, known, env);
      }
    }
  }

  /** No literal occurs in the placeholder of an entry that goes before its own. */
  ghost predicate NoneNested(order: seq<Sub>) {
    forall i, j :: 0 <= i < j < |order| ==> !Contains(order[i].placeholder, order[j].literal)
  }

  lemma LaterEntries(order: seq<Sub>, known: set<string>, i: nat)
    requires i <= |order| && PlainEntries(order) && NamesKnown(order, known)
    requires forall n :: n in known ==> Plain(n)
    ensures PlainEntries(order[i..]) && NamedEntries(order[i..])
  {
    var rest := order[i..];
    forall k | 0 <= k < |rest|
      ensures rest[k].literal != "" && Plain(rest[k].literal)
      ensures Named(rest[k].placeholder)
    {
      assert rest[k] == order[i + k];
    }
  }

  /** The text that shows a nested literal: the earlier literal on its own. */
  lemma RoundTripFails(order: seq<Sub>, known: set<string>, env: map<string, string>, i: nat, j: nat)
    requires PlainEntries(order) && DistinctLiterals(order) && ByLength(order) && NamesKnown(order, known)
    requires forall n :: n in known ==> Plain(n)
    requires i < j < |order| && Contains(order[i].placeholder, order[j].literal)
    ensures OnlyForeignReferences(order[i].literal, known) && LiteralsClear(order[i].literal, order)
    ensures Expand(Escape(ApplyInOrder(order[i].literal, order), known), env) != Some(order[i].literal)
  {
    LiteralAloneIsClear(order, order[i].literal, known);
    LongerLiteralsPass(order, i);
    var y := NestedIsBroken(order, known, i, j);
    BrokenIsNotPlain(y, known, env, order[i].literal);
  }

  lemma NestedIsBroken(order: seq<Sub>, known: set<string>, i: nat, j: nat) returns (y: string)
    requires PlainEntries(order) && NamesKnown(order, known)
    requires forall n :: n in known ==> Plain(n)
    requires i < j < |order| && Contains(order[i].placeholder, order[j].literal)
    ensures Opened(y) && ApplyInOrder(order[i].placeholder, order[i + 1..]) == Var(y)
  {
    var rest := order[i + 1..];
    LaterEntries(order, known, i + 1);
    assert rest[j - i - 1] == order[j];
    y := PlaceholderBroken(Name(order[i]), rest, j - i - 1);
  }

  /** What becomes of a literal on its own: refused while it is pending, and the value Flux
      still holds while it is rotated. */
  lemma LiteralOnItsOwn(order: seq<Sub>, known: set<string>, env: map<string, string>, i: nat)
    requires PlainEntries(order) && DistinctLiterals(order) && ByLength(order) && NamesKnown(order, known)
    requires i < |order| && NoneNested(order)
    ensures OnlyForeignReferences(order[i].literal, known) && LiteralsClear(order[i].literal, order)
    ensures Expand(Escape(ApplyInOrder(order[i].literal, order), known), env)
      == if Name(order[i]) in env then Some(env[Name(order[i])]) else None
  {
    var l, n, rest := order[i].literal, Name(order[i]), order[i + 1..];
    LiteralAloneIsClear(order, l, known);
    LongerLiteralsPass(order, i);
    forall k | 0 <= k < |rest| ensures rest[k].literal != "" && Apart(rest[k].literal, Var(n)) {
      assert rest[k] == order[i + 1 + k];
      PlainApart(rest[k].literal, n);
    }
    ApartPasses(Var(n), rest);
    VarAlone(n, known, env);
  }

  lemma VarAlone(n: string, known: set<string>, env: map<string, string>)
    requires GoodName(n) && n in known
    ensures Escape(Var(n), known) == Var(n)
    ensures Expand(Var(n), env) == if n in env then Some(env[n]) else None
  {
    EscapeOfVar(n, "", known);
    ExpandOfRef(n, "", env);
    assert Var(n) + "" == Var(n);
    assert n in env ==> env[n] + "" == env[n];
  }

  // ---- the order ------------------------------------------------------------------------

  lemma {:induction false} InsertBounded(sub: Sub, sorted: seq<Sub>, b: nat)
    requires |sub.literal| <= b && forall k :: 0 <= k < |sorted| ==> |sorted[k].literal| <= b
    ensures forall k :: 0 <= k < |InsertByLength(sub, sorted)| ==> |InsertByLength(sub, sorted)[k].literal| <= b
  {
    if sorted != [] && |sub.literal| < |sorted[0].literal| { InsertBounded(sub, sorted[1..], b); }
  }

  lemma {:induction false} InsertSorted(sub: Sub, sorted: seq<Sub>)
    requires ByLength(sorted)
    ensures ByLength(InsertByLength(sub, sorted))
  {
    if sorted != [] && |sub.literal| < |sorted[0].literal| {
      InsertSorted(sub, sorted[1..]);
      InsertBounded(sub, sorted[1..], |sorted[0].literal|);
    }
  }

  lemma {:induction false} InsertKeepsAll(sub: Sub, sorted: seq<Sub>)
    ensures multiset(InsertByLength(sub, sorted)) == multiset{sub} + multiset(sorted)
  {
    if sorted != [] && |sub.literal| < |sorted[0].literal| {
      InsertKeepsAll(sub, sorted[1..]);
      assert sorted == [sorted[0]] + sorted[1..];
    }
  }

  /** Longest first, each entry once. */
  lemma {:induction false} LongestFirstSorted(subs: seq<Sub>)
    ensures ByLength(LongestFirst(subs)) && multiset(LongestFirst(subs)) == multiset(subs)
  {
    if subs != [] {
      LongestFirstSorted(subs[1..]);
      InsertSorted(subs[0], LongestFirst(subs[1..]));
      InsertKeepsAll(subs[0], LongestFirst(subs[1..]));
      assert subs == [subs[0]] + subs[1..];
    }
  }

  lemma {:induction false} ReplaceableHolds(subs: seq<Sub>, s: Sub)
    ensures multiset(Replaceable(subs))[s] == if s.replace then multiset(subs)[s] else 0
  {
    if subs != [] {
      ReplaceableHolds(subs[1..], s);
      assert subs == [subs[0]] + subs[1..];
    }
  }

  /** What is searched for: every entry that is to be replaced, as often as it is listed, and no
      plain setting. */
  lemma OrderHolds(subs: seq<Sub>, s: Sub)
    ensures multiset(Order(subs))[s] == if s.replace then multiset(subs)[s] else 0
  {
    ReplaceableHolds(subs, s);
    LongestFirstSorted(Replaceable(subs));
  }

  lemma InOrder(subs: seq<Sub>, s: Sub)
    ensures s in Order(subs) <==> s in subs && s.replace
  {
    OrderHolds(subs, s);
    assert s in Order(subs) <==> s in multiset(Order(subs));
    assert s in subs <==> s in multiset(subs);
  }

  lemma {:induction false} SettingsDrop(a: seq<Sub>, e: Sub, b: seq<Sub>)
    requires !e.replace
    ensures Replaceable(a + [e] + b) == Replaceable(a + b)
  {
    if a == [] {
      assert ([] + [e] + b)[1..] == b && [] + b == b;
      assert Replaceable([e] + b) == [] + Replaceable(b);
    } else {
      assert (a + [e] + b)[1..] == a[1..] + [e] + b;
      assert (a + b)[1..] == a[1..] + b;
      SettingsDrop(a[1..], e, b);
    }
  }

  /** A plain setting changes no text, wherever it is listed. */
  lemma SettingsNeverMatter(t: string, a: seq<Sub>, e: Sub, b: seq<Sub>)
    requires !e.replace
    ensures ApplyText(t, a + [e] + b) == ApplyText(t, a + b)
  {
    SettingsDrop(a, e, b);
  }

  lemma {:induction false} AbsentStays(t: string, order: seq<Sub>)
    requires forall e :: e in order ==> !Contains(t, e.literal)
    ensures ApplyInOrder(t, order) == t
    decreases |order|
  {
    if order != [] {
      var l := order[0].literal;
      assert order[0] in order;
      if l == "" { assert OccursAt(l, t, 0); }
      ReplaceAbsent(t, l, order[0].placeholder);
      AbsentStays(t, order[1..]);
    }
  }

  /** A text that holds none of the literals to be replaced is left alone. */
  lemma NothingToReplace(t: string, subs: seq<Sub>)
    requires forall e :: e in subs && e.replace ==> !Contains(t, e.literal)
    ensures ApplyText(t, subs) == t
  {
    forall e | e in Order(subs) ensures !Contains(t, e.literal) {
      InOrder(subs, e);
    }
    AbsentStays(t, Order(subs));
  }

  function OfLength(subs: seq<Sub>, n: nat): seq<Sub> {
    if subs == [] then []
    else (if |subs[0].literal| == n then [subs[0]] else []) + OfLength(subs[1..], n)
  }

  lemma {:induction false} InsertStable(sub: Sub, sorted: seq<Sub>, n: nat)
    ensures OfLength(InsertByLength(sub, sorted), n) == OfLength([sub] + sorted, n)
  {
    assert ([sub] + sorted)[1..] == sorted;
    if sorted != [] && |sub.literal| < |sorted[0].literal| {
      InsertStable(sub, sorted[1..], n);
      assert ([sub] + sorted[1..])[1..] == sorted[1..];
      assert InsertByLength(sub, sorted)[1..] == InsertByLength(sub, sorted[1..]);
    }
  }

  /** Entries of one length keep the order they were listed in. */
  lemma {:induction false} LongestFirstStable(subs: seq<Sub>, n: nat)
    ensures OfLength(LongestFirst(subs), n) == OfLength(subs, n)
  {
    if subs != [] {
      LongestFirstStable(subs[1..], n);
      InsertStable(subs[0], LongestFirst(subs[1..]), n);
      var ins := [subs[0]] + LongestFirst(subs[1..]);
      assert ins[1..] == LongestFirst(subs[1..]);
    }
  }

  /** Why longest first: a string that is a literal becomes that literal's own placeholder,
      though a shorter literal occurs in it. */
  lemma WholeLiteralBecomesItsPlaceholder(subs: seq<Sub>, i: nat)
    requires i < |Order(subs)| && DistinctLiterals(Order(subs)) && LaterLiteralsApart(Order(subs))
    ensures ApplyText(Order(subs)[i].literal, subs) == Order(subs)[i].placeholder
  {
    var order := Order(subs);
    LongestFirstSorted(Replaceable(subs));
    LongerLiteralsPass(order, i);
    var rest, p := order[i + 1..], order[i].placeholder;
    forall k | 0 <= k < |rest| ensures rest[k].literal != "" && Apart(rest[k].literal, p) {
      assert rest[k] == order[i + 1 + k];
    }
    ApartPasses(p, rest);
  }

  lemma {:induction false} ApartPasses(p: string, order: seq<Sub>)
    requires forall k :: 0 <= k < |order| ==> order[k].literal != "" && Apart(order[k].literal, p)
    ensures ApplyInOrder(p, order) == p
    decreases |order|
  {
    if order != [] {
      assert p[0..] + "" == p;
      ReplaceSkips(p, 0, "", order[0].literal, order[0].placeholder);
      assert forall k :: 0 <= k < |order[1..]| ==> order[1..][k] == order[k + 1];
      ApartPasses(p, order[1..]);
    }
  }

  // ---- nothing private is left ------------------------------------------------------------

  function Chars(t: string): seq<Token> {
    seq(|t|, i requires 0 <= i < |t| => Lit(t[i]))
  }

  lemma {:induction false} CharsShow(t: string)
    ensures Render(Chars(t)) == t
    decreases |t|
  {
    if t != "" {
      CharsShow(t[1..]);
      assert Chars(t)[1..] == Chars(t[1..]);
    }
  }

  predicate NoLits(ts: seq<Token>, l: string) {
    forall k :: 0 <= k <= |ts| ==> !LitsAt(ts, k, l)
  }

  lemma {:induction false} SwapLitsAnywhere(ts: seq<Token>, l: string, name: string, m: string, k: nat) returns (j: nat)
    requires l != "" && m != "" && LitsAt(Swap(ts, l, name), k, m)
    ensures j <= |ts| && LitsAt(ts, j, m) && m != l
    decreases |ts|
  {
    var s := Swap(ts, l, name);
    if k == 0 {
      SwapLits(ts, l, name, m);
      j := 0;
      assert s[0 + 0] == Lit(m[0]);
    } else {
      var d := if LitsAt(ts, 0, l) then |l| else 1;
      assert s[1..] == Swap(ts[d..], l, name);
      LitsShift(s, 1, k - 1, m);
      j := SwapLitsAnywhere(ts[d..], l, name, m, k - 1);
      LitsShift(ts, d, j, m);
      j := d + j;
    }
  }

  lemma DropInFirst(p: string, rest: string, k: nat)
    requires k <= |p|
    ensures (p + rest)[k..] == p[k..] + rest
  {
  }

  lemma NotInToken(ts: seq<Token>, l: string, k: nat)
    requires l != "" && TokensApart(ts, l) && ts != [] && 0 < k < |Show(ts[0])|
    ensures !(l <= Render(ts)[k..])
  {
    var p, rest := Show(ts[0]), Render(ts[1..]);
    assert ts[0] in ts;
    DropInFirst(p, rest, k);
    ApartMisses(p, k, rest, l);
  }

  /** A literal seen in the text is there as untouched characters. */
  lemma {:induction false} SeenIsLits(ts: seq<Token>, l: string, k: nat) returns (j: nat)
    requires l != "" && TokensApart(ts, l) && OccursAt(l, Render(ts), k)
    ensures j <= |ts| && LitsAt(ts, j, l)
    decreases |ts|
  {
    var s := Render(ts);
    PrefixOccurs(s, k, l);
    if k == 0 {
      assert s[0..] == s && l[0..] == l;
      PrefixIsLits(ts, l, 0);
      j := 0;
    } else {
      var p := Show(ts[0]);
      if k < |p| { NotInToken(ts, l, k); }
      assert s[|p|..] == Render(ts[1..]);
      OccursInSuffix(l, s, |p|, k - |p|);
      j := SeenIsLits(ts[1..], l, k - |p|);
      LitsShift(ts, 1, j, l);
      j := j + 1;
    }
  }

  lemma {:induction false} StagesRemove(ts: seq<Token>, order: seq<Sub>, watched: seq<Sub>) returns (out: seq<Token>)
    requires forall i :: 0 <= i < |order| ==> order[i].literal != "" && IsVar(order[i].placeholder)
    requires forall i, j :: 0 <= i < |order| && 0 <= j < |watched| ==> Apart(watched[j].literal, order[i].placeholder)
    requires forall j :: 0 <= j < |watched| ==> watched[j].literal != "" && TokensApart(ts, watched[j].literal)
    requires forall i :: 0 <= i < |order| ==> order[i] in watched
    ensures Render(out) == ApplyInOrder(Render(ts), order)
    ensures forall j :: 0 <= j < |watched| ==> TokensApart(out, watched[j].literal)
    ensures forall j :: 0 <= j < |watched| && (NoLits(ts, watched[j].literal) || watched[j] in order) ==>
      NoLits(out, watched[j].literal)
    decreases |order|
  {
    if order == [] {
      out := ts;
    } else {
      var l := order[0].literal;
      var n :| order[0].placeholder == Var(n);
      var next, rest := Swap(ts, l, n), order[1..];
      assert order[0] in watched;
      ReplaceIsSwap(ts, l, n);
      SwapTokens(ts, l, n);
      assert forall i :: 0 <= i < |rest| ==> rest[i] == order[i + 1];
      forall j | 0 <= j < |watched|
        ensures TokensApart(next, watched[j].literal)
        ensures NoLits(ts, watched[j].literal) || watched[j] == order[0] ==> NoLits(next, watched[j].literal)
      {
        var m := watched[j].literal;
        assert Apart(m, order[0].placeholder) && Show(Ref(n, l)) == order[0].placeholder;
        assert TokensApart(ts, m);
        if k :| 0 <= k <= |next| && LitsAt(next, k, m) {
          var q := SwapLitsAnywhere(ts, l, n, m, k);
        }
      }
      out := StagesRemove(next, rest, watched);
      assert forall s :: s in order ==> s == order[0] || s in rest;
    }
  }

  /** Of the entries to be replaced: every literal is something to find, and none can be found in, or
      half in, any of their placeholders. */
  ghost predicate EntriesApart(subs: seq<Sub>) {
    forall e, f :: e in subs && f in subs && e.replace && f.replace ==>
      e.literal != "" && IsVar(e.placeholder) && Apart(f.literal, e.placeholder)
  }

  lemma OrderIsApart(subs: seq<Sub>)
    requires EntriesApart(subs)
    ensures LiteralsApart(Order(subs))
    ensures forall k :: 0 <= k < |Order(subs)| ==> IsVar(Order(subs)[k].placeholder)
  {
    var order := Order(subs);
    forall k | 0 <= k < |order| ensures order[k] in subs && order[k].replace {
      InOrder(subs, order[k]);
    }
  }

  /** After substitution no literal to be replaced is left anywhere in the text, whatever the text was. */
  lemma LiteralsGone(t: string, subs: seq<Sub>, e: Sub)
    requires EntriesApart(subs) && e in subs && e.replace
    ensures !Contains(ApplyText(t, subs), e.literal)
  {
    var order := Order(subs);
    OrderIsApart(subs);
    InOrder(subs, e);
    CharsShow(t);
    var out := StagesRemove(Chars(t), order, order);
    if k :| OccursAt(e.literal, Render(out), k) {
      var i :| 0 <= i < |order| && order[i] == e;
      assert TokensApart(out, order[i].literal) && NoLits(out, order[i].literal);
      var j := SeenIsLits(out, e.literal, k);
    }
  }

  /** The hypothesis on the entries, met by plain literals that occur in no placeholder. */
  lemma PlainLiteralsApart(order: seq<Sub>)
    requires PlainEntries(order)
    requires forall k :: 0 <= k < |order| ==> IsVar(order[k].placeholder)
    ensures LiteralsApart(order) <==>
      forall i, j :: 0 <= i < |order| && 0 <= j < |order| ==> !Contains(order[i].placeholder, order[j].literal)
  {
    forall i, j | 0 <= i < |order| && 0 <= j < |order|
      ensures Apart(order[j].literal, order[i].placeholder) <==> !Contains(order[i].placeholder, order[j].literal)
    {
      var n :| order[i].placeholder == Var(n);
      PlainApart(order[j].literal, n);
    }
  }
}
