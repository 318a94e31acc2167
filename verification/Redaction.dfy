/** Credential redaction (scripts/k8s_backup/secretscan.py): three passes over a parsed document,
    and the detectors that later look for what they should have caught. */
module Redaction {
  import opened Documents
  import T = Text

  const TOOL_NAME := "k8s-backup-repo-gen"
  const PLACEHOLDER := "<REDACTED-BY-" + TOOL_NAME + ">"

  // ---- keys and values that look like credentials -----------------------------------------------

  const SAFE_SUFFIXES: seq<string> :=
    ["name", "ref", "path", "url", "uri", "enabled", "kind", "type", "host", "hostname", "class", "annotations",
      "labels"]

  const SAFE_NAMES: seq<string> := ["apitokenkey", "existingsecret"]

  /** The alternatives of SUSPICIOUS_KEY_RE, spelled out. */
  const SUSPICIOUS_WORDS: seq<string> :=
    ["password", "passwd", "pwd", "secret", "token", "apikey", "api_key", "api-key",
     "accesskey", "access_key", "access-key", "privatekey", "private_key", "private-key"]

  predicate Safe(key: string) {
    T.Lower(key) in SAFE_NAMES || exists x :: x in SAFE_SUFFIXES && T.EndsWith(T.Lower(key), x)
  }

  /** A key, or an env var's name, whose value is taken for a credential. */
  predicate Suspicious(key: string) {
    (exists w :: w in SUSPICIOUS_WORDS && T.Contains(T.Lower(key), w)) && !Safe(key)
  }

  /** Keys on either side of the line. */
  lemma ApiKeyIsTaken()
    ensures Suspicious("apiKey")
  {
    var a := T.Lower("apiKey");
    assert a == "apikey" && a[0..6] == "apikey" && "apikey" in SUSPICIOUS_WORDS;
    assert T.OccursAt("apikey", a, 0);
    NoSafeEnd(a);
  }

  lemma SafeKeysAreLeft()
    ensures !Suspicious("existingSecret") && !Suspicious("secretName")
  {
    assert T.Lower("existingSecret") == "existingsecret" && SAFE_NAMES[1] == "existingsecret";
    assert T.Lower("secretName") == "secretname" && "secretname"[6..] == "name" && SAFE_SUFFIXES[0] == "name";
    assert T.EndsWith("secretname", "name");
  }

  lemma NoSafeEnd(s: string)
    ensures s == "apikey" ==> forall x :: x in SAFE_SUFFIXES ==> !T.EndsWith(s, x)
  {
    forall x | x in SAFE_SUFFIXES && T.EndsWith(s, x) ensures s != "" && s[|s| - 1] != 'y' {
      SafeEnd(x);
      LastOf(s, x);
    }
  }

  lemma LastOf(s: string, x: string)
    requires x != "" && T.EndsWith(s, x)
    ensures s != "" && s[|s| - 1] == x[|x| - 1]
  {
  }

  lemma SafeEnd(x: string)
    requires x in SAFE_SUFFIXES
    ensures x != "" && x[|x| - 1] != 'y'
  {
  }

  const NOT_A_CREDENTIAL: set<string> := {"", "true", "false"}

  predicate Base64Char(c: char) {
    'A' <= c <= 'Z' || 'a' <= c <= 'z' || '0' <= c <= '9' || c == '+' || c == '/'
  }

  /** _BASE64ISH_RE: 32 or more of the alphabet, up to two `=`, and perhaps a line end. */
  predicate Base64ish(s: string) {
    exists k, e :: 32 <= k <= |s| && 0 <= e <= 3 && Base64Parts(s, k, e)
  }

  predicate Base64Parts(s: string, k: nat, e: nat) {
    && k <= |s|
    && (forall i :: 0 <= i < k ==> Base64Char(s[i]))
    && (s[k..] in ["", "=", "==", "\n", "=\n", "==\n"]) && e == |s| - k
  }

  /** What isn't written out: the five patterns' search (their labels, in order) and the Shannon
      entropy test. */
  datatype Detectors = Detectors(patterns: string -> seq<string>, entropic: string -> bool)

  predicate HighEntropy(d: Detectors, s: string) {
    && Base64ish(s)
    && (exists i :: 0 <= i < |s| && 'A' <= s[i] <= 'Z')
    && (exists i :: 0 <= i < |s| && 'a' <= s[i] <= 'z')
    && (exists i :: 0 <= i < |s| && '0' <= s[i] <= '9')
    && d.entropic(s)
  }

  /** Of the alphabet, 32 characters or more, capital and small letters and digits: the entropy decides. A
      digest without capitals, or anything shorter, is left. */
  lemma EntropyDecides(d: Detectors, body: string, end: string)
    requires forall i :: 0 <= i < |body| ==> Base64Char(body[i])
    requires end == "" || end == "=" || end == "=="
    ensures HighEntropy(d, body + end) <==>
      && |body| >= 32 && d.entropic(body + end)
      && (exists i :: 0 <= i < |body| && 'A' <= body[i] <= 'Z')
      && (exists i :: 0 <= i < |body| && 'a' <= body[i] <= 'z')
      && (exists i :: 0 <= i < |body| && '0' <= body[i] <= '9')
  {
    var s := body + end;
    assert forall i :: 0 <= i < |body| ==> s[i] == body[i];
    assert forall i :: |body| <= i < |s| ==> s[i] == '=';
    if |body| >= 32 {
      assert s[|body|..] == end;
      assert Base64Parts(s, |body|, |end|);
    } else {
      forall k: nat, e: nat ensures Base64Parts(s, k, e) ==> k <= |body| { AlphabetEnds(s, |body|, k, e); }
    }
  }

  lemma AlphabetEnds(s: string, n: nat, k: nat, e: nat)
    requires n < |s| ==> s[n] == '='
    ensures Base64Parts(s, k, e) ==> k <= n || k <= |s| <= n
  {
    if n < k <= |s| { assert !Base64Char(s[n]); }
  }

  /** The one thing assumed of the patterns: the placeholder matches none. */
  ghost predicate DetectorsOk(d: Detectors) {
    d.patterns(PLACEHOLDER) == []
  }

  lemma PlaceholderIsHarmless(d: Detectors)
    ensures !HighEntropy(d, PLACEHOLDER) && !Suspicious(PLACEHOLDER)
  {
    assert !Base64Char(PLACEHOLDER[0]);
    PlaceholderIsNoWord();
  }

  lemma PlaceholderIsNoWord()
    ensures forall w :: w in SUSPICIOUS_WORDS ==> !T.Contains(T.Lower(PLACEHOLDER), w)
  {
    var s := T.Lower(PLACEHOLDER);
    LowerPlaceholder();
    forall w, k | w in SUSPICIOUS_WORDS && 0 <= k <= |s| && T.OccursAt(w, s, k) ensures false {
      forall i | 0 <= i < |w| ensures w[i] == s[k + i] && w[i] in s {
        assert s[k..k + |w|][i] == s[k + i];
      }
      WordsHave(w);
    }
  }

  const LOWERED := "<redacted-by-" + TOOL_NAME + ">"

  lemma LowerIs()
    ensures T.Lower(PLACEHOLDER) == LOWERED
  {
    T.LowerConcat("<REDACTED-BY-" + TOOL_NAME, ">");
    T.LowerConcat("<REDACTED-BY-", TOOL_NAME);
    assert T.Lower("<REDACTED-BY-") == "<redacted-by-";
    assert T.Lower(TOOL_NAME) == TOOL_NAME;
    assert T.Lower(">") == ">";
  }

  lemma LacksLetters()
    ensures 'w' !in LOWERED && 'i' !in LOWERED
  {
  }

  /** Two letters the placeholder lacks, and three pairs no two of its letters form. */
  lemma LowerPlaceholder()
    ensures var s := T.Lower(PLACEHOLDER);
      && 'w' !in s && 'i' !in s
      && forall i :: 0 <= i < |s| - 1 ==>
         !(s[i] == 's' && s[i + 1] == 'e') && !(s[i] == 't' && s[i + 1] == 'o') && !(s[i] == 'c' && s[i + 1] == 'c')
  {
    LowerIs();
    LacksLetters();
    LacksPairs();
  }

  lemma LacksPairs()
    ensures forall i :: 0 <= i < |LOWERED| - 1 ==>
      !(LOWERED[i] == 's' && LOWERED[i + 1] == 'e') && !(LOWERED[i] == 't' && LOWERED[i + 1] == 'o') &&
        !(LOWERED[i] == 'c' && LOWERED[i + 1] == 'c')
  {
  }

  lemma WordsHave(w: string)
    requires w in SUSPICIOUS_WORDS
    ensures |w| >= 3 && ('w' in w || 'i' in w || (w[0] == 's' && w[1] == 'e') || (w[0] == 't' && w[1] == 'o') ||
      (w[1] == 'c' && w[2] == 'c'))
  {
    assert "password"[4] == 'w' && "passwd"[4] == 'w' && "pwd"[1] == 'w';
    assert "apikey"[2] == 'i' && "api_key"[2] == 'i' && "api-key"[2] == 'i';
    assert "privatekey"[2] == 'i' && "private_key"[2] == 'i' && "private-key"[2] == 'i';
  }

  // ---- documents, child by child --------------------------------------------------------------------

  /** The key a dict holds its i-th value under. */
  function KeyOf(t: Tree, i: nat): T.Option<string> {
    if t.Dict? && i < |t.entries| then T.Some(t.entries[i].key) else T.None
  }

  /** The same dict or list with other values. */
  function With(t: Tree, kids: seq<Tree>): (r: Tree)
    requires |kids| == |Kids(t)|
    ensures Kids(r) == kids && (r.Dict? <==> t.Dict?) && (r.List? <==> t.List?)
    ensures forall i: nat :: KeyOf(r, i) == KeyOf(t, i)
  {
    match t
    case Dict(es) =>
      var r := Dict(seq(|es|, i requires 0 <= i < |es| => Entry(es[i].key, kids[i])));
      assert Kids(r) == kids;
      r
    case List(_) => List(kids)
    case _ => t
  }

  /** The first position of a key; |entries| when there is none. */
  function Position(es: seq<Entry>, key: string): (i: nat)
    ensures i <= |es| && (i < |es| ==> es[i].key == key) && forall j :: 0 <= j < i ==> es[j].key != key
  {
    if es == [] || es[0].key == key then 0 else 1 + Position(es[1..], key)
  }

  predicate HasKey(t: Tree, key: string) {
    t.Dict? && Position(t.entries, key) < |t.entries|
  }

  function Get(t: Tree, key: string): Tree
    requires HasKey(t, key)
  {
    t.entries[Position(t.entries, key)].val
  }

  lemma {:induction false} SamePosition(a: seq<Entry>, b: seq<Entry>, key: string)
    requires |a| == |b| && forall i :: 0 <= i < |a| ==> a[i].key == b[i].key
    ensures Position(a, key) == Position(b, key)
  {
    if a != [] && a[0].key != key {
      SamePosition(a[1..], b[1..], key);
    }
  }

  // ---- env lists ------------------------------------------------------------------------------------------

  /** _looks_like_env_var_list. */
  predicate LooksLikeEnv(t: Tree) {
    t.List? && t.items != [] && forall i :: 0 <= i < |t.items| ==> HasKey(t.items[i], "name")
  }

  predicate IsEnv(key: T.Option<string>, t: Tree) {
    key.Some? && key.value in ["env", "args", "command"] && LooksLikeEnv(t)
  }

  /** An env entry's name when it says its literal value is a credential. */
  function EnvName(item: Tree): T.Option<string> {
    if HasKey(item, "name") && Get(item, "name").Text? && Suspicious(Get(item, "name").s) && HasKey(item, "value")
      && Get(item, "value").Text? && T.Lower(T.Strip(Get(item, "value").s)) !in NOT_A_CREDENTIAL
    then T.Some(Get(item, "name").s)
    else T.None
  }

  // ---- the passes -----------------------------------------------------------------------------------------

  datatype Reason = Patterns(labels: seq<string>) | Entropy | EnvVar(name: string) | KeyName(key: string)

  /** A redaction: where, by child positions from the root, and why. */
  datatype Record = Record(path: seq<nat>, reason: Reason)

  datatype Pass = PatternPass | EnvPass | KeyPass

  /** Where a walk stands: in an env list, in one of its entries, or elsewhere. */
  datatype Mode = Elsewhere | EnvList | EnvEntry

  function Below(m: Mode, t: Tree, i: nat): Mode
    requires i < |Kids(t)|
  {
    if m == EnvList then EnvEntry else if IsEnv(KeyOf(t, i), Kids(t)[i]) then EnvList else Elsewhere
  }

  function PatternFlag(d: Detectors, s: string): T.Option<Reason> {
    if d.patterns(s) != [] then T.Some(Patterns(d.patterns(s)))
    else if HighEntropy(d, s) then T.Some(Entropy)
    else T.None
  }

  function KeyFlag(key: T.Option<string>, s: string): T.Option<Reason> {
    if key.Some? && Suspicious(key.value) && T.Strip(s) != "" && s != PLACEHOLDER then T.Some(KeyName(key.value))
      else T.None
  }

  /** Whether a pass redacts the i-th value of `t`, and why. */
  function Flag(d: Detectors, p: Pass, m: Mode, t: Tree, i: nat): T.Option<Reason>
    requires i < |Kids(t)|
  {
    if !Kids(t)[i].Text? then T.None
    else
      var s := Kids(t)[i].s;
      match p
      case PatternPass => PatternFlag(d, s)
      case KeyPass => KeyFlag(KeyOf(t, i), s)
      case EnvPass =>
        if m == EnvEntry && EnvName(t).Some? && i == Position(t.entries, "value") && s != PLACEHOLDER
        then T.Some(EnvVar(EnvName(t).value)) else T.None
  }

  /** The document after a pass. */
  function Walked(d: Detectors, p: Pass, m: Mode, t: Tree): Tree
    decreases t, 2
  {
    With(t, WalkedKids(d, p, m, t))
  }

  function WalkedKids(d: Detectors, p: Pass, m: Mode, t: Tree): seq<Tree>
    decreases t, 1
  {
    seq(|Kids(t)|, i requires 0 <= i < |Kids(t)| => WalkedKid(d, p, m, t, i))
  }

  function WalkedKid(d: Detectors, p: Pass, m: Mode, t: Tree, i: nat): Tree
    requires i < |Kids(t)|
    decreases t, 0
  {
    if Flag(d, p, m, t, i).Some? then Tree.Text(PLACEHOLDER) else Walked(d, p, Below(m, t, i), Kids(t)[i])
  }

  function Flat<X>(rs: seq<seq<X>>): seq<X> {
    if rs == [] then [] else Flat(rs[..|rs| - 1]) + rs[|rs| - 1]
  }

  /** The records a pass adds, in document order. */
  function Records(d: Detectors, p: Pass, m: Mode, t: Tree, path: seq<nat>): seq<Record>
    decreases t, 2
  {
    Flat(KidsRecords(d, p, m, t, path))
  }

  function KidsRecords(d: Detectors, p: Pass, m: Mode, t: Tree, path: seq<nat>): seq<seq<Record>>
    decreases t, 1
  {
    seq(|Kids(t)|, i requires 0 <= i < |Kids(t)| => KidRecords(d, p, m, t, i, path))
  }

  function KidRecords(d: Detectors, p: Pass, m: Mode, t: Tree, i: nat, path: seq<nat>): seq<Record>
    requires i < |Kids(t)|
    decreases t, 0
  {
    if Flag(d, p, m, t, i).Some? then [Record(path + [i], Flag(d, p, m, t, i).value)]
    else Records(d, p, Below(m, t, i), Kids(t)[i], path + [i])
  }
}
