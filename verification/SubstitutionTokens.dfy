/** The text as tokens: how replacing, escaping and expanding act on a captured text once
    it is read as untouched characters, foreign references and written placeholders. */
module SubstitutionTokens {
  import opened Text
  import opened Substitution

  // ---- the text as tokens --------------------------------------------------------

  /** A captured text read back: a character as it was, a foreign reference, or a
      placeholder capture wrote, with the literal it stands for. */
  datatype Token = Lit(c: char) | Foreign(name: string) | Ref(name: string, literal: string)

  function Show(t: Token): string {
    match t
    case Lit(c) => [c]
    case Foreign(n) => Var(n)
    case Ref(n, _) => Var(n)
  }

  function Render(ts: seq<Token>): string {
    if ts == [] then "" else Show(ts[0]) + Render(ts[1..])
  }

  function Meaning(t: Token): string {
    match t
    case Lit(c) => [c]
    case Foreign(n) => Var(n)
    case Ref(_, l) => l
  }

  /** The text before anything was replaced. */
  function Means(ts: seq<Token>): string {
    if ts == [] then "" else Meaning(ts[0]) + Means(ts[1..])
  }

  function Reading(t: Token, env: map<string, string>): Option<string> {
    match t
    case Lit(c) => Some([c])
    case Foreign(n) => Some(Var(n))
    case Ref(n, _) => if n in env then Some(env[n]) else None
  }

  /** The text Flux makes of it. */
  function Reads(ts: seq<Token>, env: map<string, string>): Option<string> {
    if ts == [] then Some("")
    else match Reading(ts[0], env)
      case None => None
      case Some(head) => Prepend(head, Reads(ts[1..], env))
  }

  /** The literal stands in the tokens at `k` as untouched characters. */
  predicate LitsAt(ts: seq<Token>, k: nat, l: string) {
    k + |l| <= |ts| && forall i :: 0 <= i < |l| ==> ts[k + i] == Lit(l[i])
  }

  /** Replace, on tokens. */
  function Swap(ts: seq<Token>, l: string, name: string): seq<Token>
    requires l != ""
    decreases |ts|
  {
    if ts == [] then []
    else if LitsAt(ts, 0, l) then [Ref(name, l)] + Swap(ts[|l|..], l, name)
    else [ts[0]] + Swap(ts[1..], l, name)
  }

  predicate TokensApart(ts: seq<Token>, l: string) {
    forall t :: t in ts && !t.Lit? ==> Apart(l, Show(t))
  }

  lemma {:induction false} LitsShow(ts: seq<Token>, l: string)
    requires LitsAt(ts, 0, l)
    ensures Render(ts) == l + Render(ts[|l|..])
    ensures Means(ts) == l + Means(ts[|l|..])
    decreases |l|
  {
    if l == "" {
      assert ts[0..] == ts;
    } else {
      var tl, rest := ts[1..], l[1..];
      assert ts[0] == ts[0 + 0] == Lit(l[0]);
      assert LitsAt(tl, 0, rest) by {
        forall i | 0 <= i < |rest| ensures tl[0 + i] == Lit(rest[i]) { assert ts[0 + (i + 1)] == Lit(l[i + 1]); }
      }
      LitsShow(tl, rest);
      assert tl[|rest|..] == ts[|l|..];
      assert l == [l[0]] + rest;
      ConcatAssoc([l[0]], rest, Render(ts[|l|..]));
      ConcatAssoc([l[0]], rest, Means(ts[|l|..]));
    }
  }

  lemma ConcatAssoc(a: string, b: string, c: string)
    ensures a + (b + c) == (a + b) + c
  {
  }

  /** What the text shows of a literal from its k-th character on, the tokens hold as characters. */
  lemma {:induction false} PrefixIsLits(ts: seq<Token>, l: string, k: nat)
    requires k <= |l| && l[k..] <= Render(ts) && TokensApart(ts, l)
    ensures LitsAt(ts, 0, l[k..])
    decreases |l| - k
  {
    if k < |l| {
      assert Render(ts)[0] == l[k..][0] == l[k];
      if ts[0].Lit? {
        assert Render(ts)[1..] == Render(ts[1..]);
        assert l[k + 1..] == l[k..][1..];
        PrefixIsLits(ts[1..], l, k + 1);
        forall i | 0 <= i < |l[k..]| ensures ts[i] == Lit(l[k..][i]) {
          if i > 0 { assert ts[1..][0 + (i - 1)] == Lit(l[k + 1..][i - 1]); }
        }
      } else {
        var p := Show(ts[0]);
        forall i | 0 <= i < |l| && 0 <= i - k < |p| ensures l[i] == p[i - k] {
          assert l[i] == l[k..][i - k] == Render(ts)[i - k];
        }
        assert Overlaps(l, p, 0 - k);
        assert false;
      }
    }
  }

  lemma ApartMisses(p: string, d: nat, rest: string, l: string)
    requires d < |p| && l != "" && Apart(l, p)
    ensures !(l <= p[d..] + rest)
  {
    var s := p[d..] + rest;
    if l <= s {
      forall i | 0 <= i < |l| && 0 <= d + i < |p| ensures l[i] == p[d + i] {
        assert l[i] == s[i] == p[d..][i];
      }
      assert Overlaps(l, p, d);
      assert false;
    }
  }

  /** A piece no copy of the literal can touch is copied through. */
  lemma {:induction false} ReplaceSkips(p: string, d: nat, rest: string, l: string, into: string)
    requires d <= |p| && l != "" && Apart(l, p)
    ensures Replace(p[d..] + rest, l, into) == p[d..] + Replace(rest, l, into)
    decreases |p| - d
  {
    if d == |p| {
      assert p[d..] + rest == rest;
      assert p[d..] == "";
    } else {
      ApartMisses(p, d, rest, l);
      assert (p[d..] + rest)[1..] == p[d + 1..] + rest;
      ReplaceSkips(p, d + 1, rest, l, into);
      assert p[d..] == [p[d]] + p[d + 1..];
      ConcatAssoc([p[d]], p[d + 1..], Replace(rest, l, into));
    }
  }

  lemma {:induction false} ReplaceIsSwap(ts: seq<Token>, l: string, name: string)
    requires l != "" && TokensApart(ts, l)
    ensures Replace(Render(ts), l, Var(name)) == Render(Swap(ts, l, name))
    decreases |ts|
  {
    if ts == [] {
    } else if LitsAt(ts, 0, l) {
      LitsShow(ts, l);
      ReplaceIsSwap(ts[|l|..], l, name);
      assert Render(ts)[|l|..] == Render(ts[|l|..]);
      assert ([Ref(name, l)] + Swap(ts[|l|..], l, name))[1..] == Swap(ts[|l|..], l, name);
    } else {
      ReplaceIsSwap(ts[1..], l, name);
      assert ([ts[0]] + Swap(ts[1..], l, name))[1..] == Swap(ts[1..], l, name);
      if ts[0].Lit? {
        if l <= Render(ts) {
          assert l[0..] == l;
          PrefixIsLits(ts, l, 0);
          assert false;
        }
        assert Render(ts)[1..] == Render(ts[1..]);
      } else {
        var p := Show(ts[0]);
        assert p[0..] == p;
        ReplaceSkips(p, 0, Render(ts[1..]), l, Var(name));
      }
    }
  }

  lemma {:induction false} SwapKeepsMeaning(ts: seq<Token>, l: string, name: string)
    requires l != ""
    ensures Means(Swap(ts, l, name)) == Means(ts)
    decreases |ts|
  {
    if ts == [] {
    } else if LitsAt(ts, 0, l) {
      LitsShow(ts, l);
      SwapKeepsMeaning(ts[|l|..], l, name);
      assert ([Ref(name, l)] + Swap(ts[|l|..], l, name))[1..] == Swap(ts[|l|..], l, name);
    } else {
      SwapKeepsMeaning(ts[1..], l, name);
      assert ([ts[0]] + Swap(ts[1..], l, name))[1..] == Swap(ts[1..], l, name);
    }
  }

  /** Swapping leaves only old tokens and the new reference. */
  lemma {:induction false} SwapTokens(ts: seq<Token>, l: string, name: string)
    requires l != ""
    ensures forall t :: t in Swap(ts, l, name) ==> t in ts || t == Ref(name, l)
    decreases |ts|
  {
    if ts == [] {
    } else if LitsAt(ts, 0, l) {
      SwapTokens(ts[|l|..], l, name);
    } else {
      SwapTokens(ts[1..], l, name);
    }
  }

  /** A run of characters the swap leaves was there before it. */
  lemma {:induction false} SwapLits(ts: seq<Token>, l: string, name: string, m: string)
    requires l != "" && m != "" && LitsAt(Swap(ts, l, name), 0, m)
    ensures LitsAt(ts, 0, m)
    decreases |m|
  {
    var s := Swap(ts, l, name);
    assert s[0 + 0] == Lit(m[0]);
    assert !LitsAt(ts, 0, l);
    if |m| > 1 {
      assert s[1..] == Swap(ts[1..], l, name);
      forall i | 0 <= i < |m[1..]| ensures s[1..][0 + i] == Lit(m[1..][i]) { assert s[0 + (i + 1)] == Lit(m[i + 1]); }
      SwapLits(ts[1..], l, name, m[1..]);
      forall i | 0 <= i < |m| ensures ts[0 + i] == Lit(m[i]) {
        if i > 0 { assert ts[1..][0 + (i - 1)] == Lit(m[1..][i - 1]); }
      }
    }
  }

  /** No lone `$` stands where the next token could make it open a reference. */
  predicate Sound(ts: seq<Token>) {
    forall k :: 0 <= k < |ts| - 1 && ts[k] == Lit('$') ==> ts[k + 1].Lit? && ts[k + 1].c != '{'
  }

  /** The literal never follows a `$`. */
  predicate DollarFree(ts: seq<Token>, l: string) {
    forall k :: 0 <= k < |ts| && ts[k] == Lit('$') ==> !LitsAt(ts, k + 1, l)
  }

  lemma LitsShift(ts: seq<Token>, j: nat, k: nat, m: string)
    requires j <= |ts|
    ensures LitsAt(ts[j..], k, m) <==> LitsAt(ts, j + k, m)
  {
    if LitsAt(ts, j + k, m) {
      forall i | 0 <= i < |m| ensures ts[j..][k + i] == Lit(m[i]) { assert ts[j + k + i] == Lit(m[i]); }
    }
    if LitsAt(ts[j..], k, m) {
      forall i | 0 <= i < |m| ensures ts[j + k + i] == Lit(m[i]) { assert ts[j..][k + i] == Lit(m[i]); }
    }
  }

  lemma SuffixDollarFree(ts: seq<Token>, j: nat, l: string)
    requires j <= |ts| && DollarFree(ts, l)
    ensures DollarFree(ts[j..], l)
  {
    forall k | 0 <= k < |ts[j..]| && ts[j..][k] == Lit('$') ensures !LitsAt(ts[j..], k + 1, l) {
      LitsShift(ts, j, k + 1, l);
      assert ts[j + k] == Lit('$');
    }
  }

  lemma {:induction false} SwapKeepsDollarFree(ts: seq<Token>, l: string, name: string, m: string)
    requires l != "" && m != "" && DollarFree(ts, m)
    ensures DollarFree(Swap(ts, l, name), m)
    decreases |ts|
  {
    var s := Swap(ts, l, name);
    if ts != [] {
      var j := if LitsAt(ts, 0, l) then |l| else 1;
      var tl := Swap(ts[j..], l, name);
      assert s[1..] == tl;
      SuffixDollarFree(ts, j, m);
      SwapKeepsDollarFree(ts[j..], l, name, m);
      forall k | 0 <= k < |s| && s[k] == Lit('$') ensures !LitsAt(s, k + 1, m) {
        LitsShift(s, 1, k, m);
        if k > 0 {
          assert tl[k - 1] == Lit('$');
        } else {
          assert ts[0] == Lit('$') && j == 1;
          LitsShift(ts, 1, 0, m);
          if LitsAt(tl, 0, m) { SwapLits(ts[1..], l, name, m); }
        }
      }
    }
  }

  lemma {:induction false} SwapKeepsSound(ts: seq<Token>, l: string, name: string)
    requires l != "" && Sound(ts) && DollarFree(ts, l)
    ensures Sound(Swap(ts, l, name))
    decreases |ts|
  {
    var s := Swap(ts, l, name);
    if ts != [] {
      var j := if LitsAt(ts, 0, l) then |l| else 1;
      var tl := Swap(ts[j..], l, name);
      assert s[1..] == tl;
      SuffixDollarFree(ts, j, l);
      SwapKeepsSound(ts[j..], l, name);
      forall k | 0 <= k < |s| - 1 && s[k] == Lit('$') ensures s[k + 1].Lit? && s[k + 1].c != '{' {
        if k > 0 {
          assert tl[k - 1] == Lit('$') && tl[k] == s[k + 1];
        } else {
          assert ts[0] == Lit('$') && j == 1;
          LitsShift(ts, 1, 0, l);
          assert tl[0] == ts[1..][0] == ts[0 + 1];
        }
      }
    }
  }

  // ---- from tokens through Escape and Expand ----------------------------------------

  predicate TokenOk(t: Token, known: set<string>) {
    match t
    case Lit(_) => true
    case Ref(n, _) => n in known && GoodName(n)
    case Foreign(n) => n !in known && GoodName(n) && forall b :: 0 <= b < |n| ==> !OpensAt(n, b)
  }

  predicate TokensOk(ts: seq<Token>, known: set<string>) {
    forall t :: t in ts ==> TokenOk(t, known)
  }

  lemma {:induction false} FindInVar(n: string, rest: string, k: nat)
    requires GoodName(n) && 2 <= k <= |n| + 2
    ensures Find(Var(n) + rest, '}', k) == |n| + 2
    decreases |n| + 2 - k
  {
    var s := Var(n) + rest;
    if k < |n| + 2 {
      assert s[k] == n[k - 2];
      FindInVar(n, rest, k + 1);
    }
  }

  /** Text that opens no reference and ends in something other than `$` is copied through. */
  lemma {:induction false} ExpandCopies(p: string, rest: string, env: map<string, string>)
    requires p != "" ==> p[|p| - 1] != '$'
    requires forall b :: 0 <= b < |p| ==> !OpensAt(p, b)
    ensures Expand(p + rest, env) == Prepend(p, Expand(rest, env))
    decreases |p|
  {
    if p == "" {
      assert p + rest == rest;
      assert Expand(rest, env).Some? ==> "" + Expand(rest, env).value == Expand(rest, env).value;
    } else {
      var s := p + rest;
      assert !("${" <= s) by {
        if "${" <= s { assert s[0] == '$' && s[1] == '{'; assert |p| > 1; assert OpensAt(p, 0); }
      }
      assert !("$${" <= s) by {
        if "$${" <= s {
          assert s[0] == '$' && s[1] == '$' && s[2] == '{';
          assert |p| > 1 && p[1] == '$' && |p| > 2;
          assert OpensAt(p, 1);
        }
      }
      assert s[1..] == p[1..] + rest;
      forall b | 0 <= b < |p[1..]| ensures !OpensAt(p[1..], b) { assert !OpensAt(p, b + 1); }
      ExpandCopies(p[1..], rest, env);
      assert [p[0]] + p[1..] == p;
      if Expand(rest, env).Some? { ConcatAssoc([p[0]], p[1..], Expand(rest, env).value); }
    }
  }

  lemma EscapeOfVar(n: string, rest: string, known: set<string>)
    requires GoodName(n)
    ensures EscapeFrom(Var(n) + rest, false, known) ==
      (if n in known then "" else "$") + Var(n) + EscapeFrom(rest, false, known)
  {
    var s := Var(n) + rest;
    FindInVar(n, rest, 2);
    assert s[0] == '$' && s[1] == '{' && "${" <= s;
    assert s[2..|n| + 2] == n;
    assert s[..|n| + 3] == Var(n);
    assert s[|n| + 3..] == rest;
  }

  lemma ExpandOfRef(n: string, rest: string, env: map<string, string>)
    requires GoodName(n)
    ensures Expand(Var(n) + rest, env) == if n in env then Prepend(env[n], Expand(rest, env)) else None
  {
    var s := Var(n) + rest;
    FindInVar(n, rest, 2);
    assert s[0] == '$' && s[1] == '{' && "${" <= s && !("$${" <= s);
    assert s[2..|n| + 2] == n;
    assert s[|n| + 3..] == rest;
  }

  lemma ExpandOfEscaped(n: string, rest: string, env: map<string, string>)
    requires forall b :: 0 <= b < |n| ==> !OpensAt(n, b)
    ensures Expand("$" + Var(n) + rest, env) == Prepend(Var(n), Expand(rest, env))
  {
    var s, p := "$" + Var(n) + rest, n + "}";
    assert s[0] == '$' && s[1] == '$' && s[2] == '{' && "$${" <= s;
    assert s[3..] == p + rest;
    forall b | 0 <= b < |p| ensures !OpensAt(p, b) {
      if b < |n| { assert !OpensAt(n, b); }
    }
    ExpandCopies(p, rest, env);
    assert "${" + p == Var(n);
    if Expand(rest, env).Some? { ConcatAssoc("${", p, Expand(rest, env).value); }
  }

  /** The two characters an escaped text can begin with, after a `$`. */
  lemma EscapeAfterDollar(ts: seq<Token>, known: set<string>)
    requires Sound([Lit('$')] + ts)
    ensures var e := EscapeFrom(Render(ts), true, known);
      (e == "" || e[0] != '{') && !OpensAt(e, 0)
  {
    if ts != [] {
      var all := [Lit('$')] + ts;
      assert all[0] == Lit('$') && all[0 + 1] == ts[0];
      assert Render(ts) == [ts[0].c] + Render(ts[1..]);
      assert Render(ts)[1..] == Render(ts[1..]);
      if ts[0].c == '$' && |ts| > 1 {
        assert all[1] == Lit('$') && all[1 + 1] == ts[1];
        assert Render(ts[1..]) == [ts[1].c] + Render(ts[2..]) by { assert ts[1..][1..] == ts[2..]; }
      }
    }
  }

  lemma SuffixSound(ts: seq<Token>, known: set<string>)
    requires ts != [] && Sound(ts) && TokensOk(ts, known)
    ensures Sound(ts[1..]) && TokensOk(ts[1..], known) && TokenOk(ts[0], known)
    ensures ts[0] == Lit('$') && |ts| > 1 ==> ts[1].Lit? && ts[1].c != '{'
  {
    var tl := ts[1..];
    forall k | 0 <= k < |tl| - 1 && tl[k] == Lit('$') ensures tl[k + 1].Lit? && tl[k + 1].c != '{' {
      assert ts[k + 1] == Lit('$') && tl[k + 1] == ts[k + 1 + 1];
    }
    assert ts[0] in ts;
    assert |ts| > 1 ==> ts[1] == ts[0 + 1];
  }

  lemma {:induction false} TokensExpand(ts: seq<Token>, afterDollar: bool, known: set<string>, env: map<string, string>)
    requires Sound(ts) && TokensOk(ts, known)
    requires afterDollar && ts != [] ==> ts[0].Lit? && ts[0].c != '{'
    ensures Expand(EscapeFrom(Render(ts), afterDollar, known), env) == Reads(ts, env)
    decreases |ts|
  {
    if ts == [] {
    } else {
      SuffixSound(ts, known);
      TokensExpand(ts[1..], ts[0] == Lit('$'), known, env);
      OneTokenExpands(ts, afterDollar, known, env);
    }
  }

  lemma OneTokenExpands(ts: seq<Token>, afterDollar: bool, known: set<string>, env: map<string, string>)
    requires ts != [] && Sound(ts) && TokenOk(ts[0], known)
    requires afterDollar ==> ts[0].Lit?
    requires Expand(EscapeFrom(Render(ts[1..]), ts[0] == Lit('$'), known), env) == Reads(ts[1..], env)
    ensures Expand(EscapeFrom(Render(ts), afterDollar, known), env) == Reads(ts, env)
  {
    var tl := ts[1..];
    var e := EscapeFrom(Render(tl), ts[0] == Lit('$'), known);
    match ts[0]
    case Lit(c) =>
      LitEscape(ts, afterDollar, known);
      if c == '$' {
        assert [Lit('$')] + tl == ts;
        EscapeAfterDollar(tl, known);
      }
      ExpandOfLit(c, e, env);
    case Ref(n, _) =>
      EscapeOfVar(n, Render(tl), known);
      assert "" + Var(n) == Var(n);
      ExpandOfRef(n, e, env);
    case Foreign(n) =>
      EscapeOfVar(n, Render(tl), known);
      ExpandOfEscaped(n, e, env);
  }

  lemma LitEscape(ts: seq<Token>, afterDollar: bool, known: set<string>)
    requires ts != [] && ts[0].Lit? && Sound(ts)
    ensures EscapeFrom(Render(ts), afterDollar, known) == [ts[0].c] + EscapeFrom(Render(ts[1..]), ts[0].c == '$', known)
  {
    var s := Render(ts);
    assert s[1..] == Render(ts[1..]);
    if ts[0].c == '$' && |ts| > 1 {
      assert ts[0] == Lit('$') && ts[0 + 1].Lit?;
      assert s[1] == Render(ts[1..])[0] == ts[1].c;
    }
  }

  lemma ExpandOfLit(c: char, e: string, env: map<string, string>)
    requires c == '$' ==> (e == "" || e[0] != '{') && !OpensAt(e, 0)
    ensures Expand([c] + e, env) == Prepend([c], Expand(e, env))
  {
    var s := [c] + e;
    assert s[1..] == e;
    Opens(s);
    OpensEscaped(s);
    assert OpensAt(s, 1) <==> OpensAt(e, 0);
  }

  // ---- from the text to tokens -------------------------------------------------------

  function Tokens(t: string): seq<Token>
    decreases |t|
  {
    if t == "" then []
    else if "${" <= t && Find(t, '}', 2) < |t| then
      var e := Find(t, '}', 2);
      [Foreign(t[2..e])] + Tokens(t[e + 1..])
    else [Lit(t[0])] + Tokens(t[1..])
  }

  /** No copy of `l` in `t` is right after a `$`. */
  ghost predicate NeverAfterDollar(t: string, l: string) {
    forall k :: k > 0 && OccursAt(l, t, k) ==> t[k - 1] != '$'
  }

  lemma Opens(t: string)
    ensures "${" <= t <==> OpensAt(t, 0)
  {
    assert "${" == ['$', '{'];
    if OpensAt(t, 0) { assert t[..2] == ['$', '{']; }
  }

  lemma OpensEscaped(t: string)
    ensures "$${" <= t <==> |t| >= 3 && t[0] == '$' && OpensAt(t, 1)
  {
    assert "$${" == ['$', '$', '{'];
    if |t| >= 3 && t[0] == '$' && OpensAt(t, 1) { assert t[..3] == ['$', '$', '{']; }
  }

  lemma FirstRefAt(t: string)
    requires "${" <= t && Find(t, '}', 2) < |t|
    ensures var e := Find(t, '}', 2); RefAt(t, 0, e) && t[..e + 1] == t[0..e + 1] == Var(t[2..e])
  {
    var e := Find(t, '}', 2);
    Opens(t);
    Parts(t, e);
    assert t[..2] == "${" && [t[e]] == "}";
  }

  lemma TakeDrop(t: string, k: nat)
    requires k <= |t|
    ensures t == t[..k] + t[k..]
  {
  }

  lemma Parts(t: string, e: nat)
    requires 2 <= e < |t|
    ensures t[..e + 1] == t[..2] + t[2..e] + [t[e]]
  {
  }

  lemma {:induction false} TokensAreTheText(t: string)
    ensures Render(Tokens(t)) == t && Means(Tokens(t)) == t
    decreases |t|
  {
    if t == "" {
    } else if "${" <= t && Find(t, '}', 2) < |t| {
      var e := Find(t, '}', 2);
      TokensAreTheText(t[e + 1..]);
      assert Tokens(t)[1..] == Tokens(t[e + 1..]);
      FirstRefAt(t);
      TakeDrop(t, e + 1);
    } else {
      TokensAreTheText(t[1..]);
      assert Tokens(t)[1..] == Tokens(t[1..]);
    }
  }

  lemma ReferencesOfSuffix(t: string, j: nat, known: set<string>)
    requires j <= |t| && OnlyForeignReferences(t, known)
    ensures OnlyForeignReferences(t[j..], known)
  {
    var u := t[j..];
    forall a | OpensAt(u, a)
      ensures a > 0 ==> u[a - 1] != '$'
      ensures exists e :: RefAt(u, a, e) && u[a + 2..e] !in known && forall b :: a < b < e ==> !OpensAt(u, b)
    {
      assert OpensAt(t, j + a);
      var e :| RefAt(t, j + a, e) && t[j + a + 2..e] !in known && forall b :: j + a < b < e ==> !OpensAt(t, b);
      assert u[a + 2..e - j] == t[j + a + 2..e];
      forall b | a < b < e - j ensures !OpensAt(u, b) { assert !OpensAt(t, j + b); }
      assert RefAt(u, a, e - j);
    }
  }

  lemma AfterDollarOfSuffix(t: string, j: nat, l: string)
    requires j <= |t| && NeverAfterDollar(t, l)
    ensures NeverAfterDollar(t[j..], l)
  {
    forall k | k > 0 && OccursAt(l, t[j..], k) ensures t[j..][k - 1] != '$' {
      assert t[j..][k..k + |l|] == t[j + k..j + k + |l|];
      assert OccursAt(l, t, j + k);
    }
  }

  /** The first reference of a text that begins with one. */
  lemma FirstReference(t: string, known: set<string>) returns (e: nat)
    requires "${" <= t && OnlyForeignReferences(t, known)
    ensures e == Find(t, '}', 2) < |t| && RefAt(t, 0, e)
    ensures t[2..e] !in known && GoodName(t[2..e]) && forall b :: 0 <= b < |t[2..e]| ==> !OpensAt(t[2..e], b)
  {
    assert t[0] == "${"[0] && t[1] == "${"[1];
    assert OpensAt(t, 0);
    var f :| RefAt(t, 0, f) && t[2..f] !in known && forall b :: 0 < b < f ==> !OpensAt(t, b);
    e := f;
    var n := t[2..e];
    forall b | 0 <= b < |n| ensures !OpensAt(n, b) { assert !OpensAt(t, b + 2); }
  }

  lemma {:induction false} TokensOfCleanText(t: string, known: set<string>)
    requires OnlyForeignReferences(t, known)
    ensures Sound(Tokens(t)) && TokensOk(Tokens(t), known)
    decreases |t|
  {
    if t == "" {
    } else if "${" <= t {
      var e := FirstReference(t, known);
      ReferencesOfSuffix(t, e + 1, known);
      TokensOfCleanText(t[e + 1..], known);
      SoundCons(Foreign(t[2..e]), Tokens(t[e + 1..]));
    } else {
      ReferencesOfSuffix(t, 1, known);
      TokensOfCleanText(t[1..], known);
      var tl := Tokens(t[1..]);
      if t[0] == '$' && tl != [] {
        Opens(t);
        Opens(t[1..]);
        assert OpensAt(t[1..], 0) <==> OpensAt(t, 1);
      }
      SoundCons(Lit(t[0]), tl);
    }
  }

  lemma PrefixOccurs(t: string, j: nat, l: string)
    requires j <= |t|
    ensures l <= t[j..] <==> OccursAt(l, t, j)
  {
    if j + |l| <= |t| { assert t[j..][..|l|] == t[j..j + |l|]; }
  }

  lemma SoundCons(t: Token, tl: seq<Token>)
    requires Sound(tl) && (t == Lit('$') && tl != [] ==> tl[0].Lit? && tl[0].c != '{')
    ensures Sound([t] + tl)
  {
    var ts := [t] + tl;
    forall k | 0 <= k < |ts| - 1 && ts[k] == Lit('$') ensures ts[k + 1].Lit? && ts[k + 1].c != '{' {
      if k > 0 { assert tl[k - 1] == Lit('$') && ts[k + 1] == tl[k - 1 + 1]; }
    }
  }

  lemma {:induction false} TokensNeverAfterDollar(t: string, l: string)
    requires l != "" && NeverAfterDollar(t, l)
    ensures DollarFree(Tokens(t), l)
    decreases |t|
  {
    var ts := Tokens(t);
    if t != "" {
      var j := if "${" <= t && Find(t, '}', 2) < |t| then Find(t, '}', 2) + 1 else 1;
      var tl := Tokens(t[j..]);
      assert ts[1..] == tl;
      AfterDollarOfSuffix(t, j, l);
      TokensNeverAfterDollar(t[j..], l);
      forall k | 0 <= k < |ts| && ts[k] == Lit('$') ensures !LitsAt(ts, k + 1, l) {
        LitsShift(ts, 1, k, l);
        if k > 0 {
          assert tl[k - 1] == Lit('$');
        } else {
          assert j == 1 && t[0] == '$' && !OccursAt(l, t, 1);
          TokensAreTheText(t[1..]);
          PrefixOccurs(t, 1, l);
          if LitsAt(tl, 0, l) { LitsShow(tl, l); }
        }
      }
    }
  }

  lemma RefOfSuffix(t: string, j: nat, a: nat, e: nat)
    requires j <= |t| && RefAt(t[j..], a, e)
    ensures RefAt(t, j + a, j + e) && t[j + a..j + e + 1] == t[j..][a..e + 1]
  {
    var u := t[j..];
    assert forall i :: 0 <= i < |u| ==> u[i] == t[j + i];
    forall i | j + a + 2 <= i < j + e ensures t[i] != '}' { assert u[i - j] != '}'; }
  }

  /** No copy of `l` touches a reference of `t`. */
  ghost predicate ClearOfRefs(t: string, l: string) {
    forall a, e :: RefAt(t, a, e) ==> Apart(l, t[a..e + 1])
  }

  lemma ClearOfSuffix(t: string, j: nat, l: string)
    requires j <= |t| && ClearOfRefs(t, l)
    ensures ClearOfRefs(t[j..], l)
  {
    forall a, e | RefAt(t[j..], a, e) ensures Apart(l, t[j..][a..e + 1]) { RefOfSuffix(t, j, a, e); }
  }

  /** Nor, then, a foreign token of the text. */
  lemma {:induction false} TokensClear(t: string, l: string)
    requires ClearOfRefs(t, l)
    ensures TokensApart(Tokens(t), l)
    decreases |t|
  {
    if t == "" {
    } else if "${" <= t && Find(t, '}', 2) < |t| {
      var e := Find(t, '}', 2);
      FirstRefAt(t);
      assert Apart(l, t[0..e + 1]);
      ClearOfSuffix(t, e + 1, l);
      TokensClear(t[e + 1..], l);
    } else {
      ClearOfSuffix(t, 1, l);
      TokensClear(t[1..], l);
    }
  }
}
