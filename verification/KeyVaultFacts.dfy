/** Writing NetBox's facts into Key Vault, and the fingerprint tag that lets a run skip
    reading a value (run, agree and fingerprint in scripts/keyvault_facts.py). */
module KeyVaultFacts {
  import opened Text
  import opened Json

  const TAG := "keyvault-facts"
  const FINGERPRINT_KEY := "KEYVAULT-FACTS-FINGERPRINT-KEY"

  /** HMAC-SHA256 and Python's json module, taken as given. */
  datatype World = World(mac: (string, string) -> string, dumps: Json -> string, loads: string -> Option<Json>)

  ghost predicate Assumed(w: World) {
    && (forall k, m, k', m' :: w.mac(k, m) == w.mac(k', m') ==> k == k' && m == m')
    && (forall j :: w.loads(w.dumps(j)).Some? && Same(w.loads(w.dumps(j)).value, j))
  }

  /** What a run makes of one mapped name: text, or a view's data, written as JSON. */
  datatype Given = Plain(text: string) | Data(json: Json)
  datatype Made = Gives(given: Given) | LeftAlone | Failed
  datatype Fact = Fact(name: string, made: Made)

  function ValueOf(w: World, g: Given): string {
    match g
    case Plain(t) => t
    case Data(j) => w.dumps(j)
  }

  /** The names a map may hold have no NUL in them. */
  predicate NoNul(name: string) {
    '\0' !in name
  }

  function Fingerprint(w: World, key: string, name: string, value: string): string {
    w.mac(key, name + "\0" + value)
  }

  lemma FingerprintInjective(w: World, k: string, n: string, v: string, k': string, n': string, v': string)
    requires Assumed(w) && NoNul(n) && NoNul(n')
    requires Fingerprint(w, k, n, v) == Fingerprint(w, k', n', v')
    ensures k == k' && n == n' && v == v'
  {
    var a, b := n + "\0" + v, n' + "\0" + v';
    assert a == b;
    if |n| < |n'| { NulAt(n, v, n', v'); }
    if |n'| < |n| { NulAt(n', v', n, v); }
    assert a[..|n|] == n && b[..|n|] == n';
    assert a[|n| + 1..] == v && b[|n| + 1..] == v';
  }

  lemma NulAt(n: string, v: string, n': string, v': string)
    requires |n| < |n'| && n + "\0" + v == n' + "\0" + v'
    ensures '\0' in n'
  {
    assert (n + "\0" + v)[|n|] == '\0';
    assert (n' + "\0" + v')[|n|] == n'[|n|];
  }

  // ---- agreeing --------------------------------------------------------------------

  /** Key Vault's text is the value, or, for data, JSON of the same data. */
  predicate Agrees(w: World, held: string, g: Given) {
    match g
    case Plain(t) => held == t
    case Data(j) => w.loads(held).Some? && Same(j, w.loads(held).value)
  }

  datatype Verdict = Verdict(same: bool, notJson: bool, diff: seq<Diff>)

  /** agree. */
  function Agree(w: World, have: Option<string>, g: Given): Verdict {
    match have
    case None => Verdict(false, false, [])
    case Some(held) =>
      match g
      case Plain(t) => Verdict(held == t, false, [])
      case Data(j) =>
        match w.loads(held)
        case None => Verdict(false, true, [])
        case Some(h) => var d := Paths(j, h, []); Verdict(d == [], false, d)
  }

  lemma AgreeIsAgrees(w: World, have: Option<string>, g: Given)
    ensures Agree(w, have, g).same <==> have.Some? && Agrees(w, have.value, g)
    ensures have.Some? && Agree(w, have, g).same ==> Agree(w, have, g).diff == []
  {
    if have.Some? && g.Data? && w.loads(have.value).Some? {
      PathsEmptyExactly(g.json, w.loads(have.value).value, []);
    }
  }

  // ---- Key Vault (assumed: versions are kept, the newest current) ---------------------

  datatype Version = Version(value: string, tags: map<string, string>)
  type Store = map<string, seq<Version>>

  function Current(s: Store, name: string): Option<Version> {
    if name in s && s[name] != [] then Some(s[name][|s[name]| - 1]) else None
  }

  function Versions(s: Store, name: string): seq<Version> {
    if name in s then s[name] else []
  }

  /** One call that changes Key Vault: someone setting a value by hand (a new version,
      untagged) or deleting a secret, a run setting a value, or a run tagging a version. */
  datatype Call =
    | Edit(name: string, value: string)
    | Delete(name: string)
    | SetValue(name: string, given: Given, key: Option<string>)
    | TagVersion(name: string, version: nat, given: Given, markKey: string)

  function WithMark(w: World, tags: map<string, string>, name: string, value: string,
                    key: Option<string>): map<string, string>
  {
    match key
    case Some(k) => tags[TAG := Fingerprint(w, k, name, value)]
    case None => tags - {TAG}
  }

  function Apply(w: World, s: Store, c: Call): Store {
    match c
    case Edit(n, v) => s[n := Versions(s, n) + [Version(v, map[])]]
    case Delete(n) => s - {n}
    case SetValue(n, g, key) =>
      var held := match Current(s, n) case Some(v) => v.tags case None => map[];
      s[n := Versions(s, n) + [Version(ValueOf(w, g), WithMark(w, held, n, ValueOf(w, g), key))]]
    case TagVersion(n, i, g, key) =>
      if i < |Versions(s, n)| then
        var v := s[n][i];
        s[n := s[n][i := v.(tags := WithMark(w, v.tags, n, ValueOf(w, g), Some(key)))]]
      else s
  }

  /** What a run may do: tag a version it has read and found agreeing. The map is fixed, so
      a name gives text on every run or data on every run. */
  predicate Allowed(w: World, isData: string -> bool, s: Store, c: Call) {
    match c
    case Edit(_, _) => true
    case Delete(_) => true
    case SetValue(n, g, _) => NoNul(n) && g.Data? == isData(n)
    case TagVersion(n, i, g, _) =>
      NoNul(n) && g.Data? == isData(n) && (i < |Versions(s, n)| ==> Agrees(w, Versions(s, n)[i].value, g))
  }

  predicate AllAllowed(w: World, isData: string -> bool, s: Store, calls: seq<Call>)
    decreases |calls|
  {
    calls == [] || (Allowed(w, isData, s, calls[0]) && AllAllowed(w, isData, Apply(w, s, calls[0]), calls[1..]))
  }

  function ApplyAll(w: World, s: Store, calls: seq<Call>): Store
    decreases |calls|
  {
    if calls == [] then s else ApplyAll(w, Apply(w, s, calls[0]), calls[1..])
  }

  // ---- the invariant -----------------------------------------------------------------

  /** The version's fingerprint is of some value the name was given and the version agrees with. */
  ghost predicate Truthful(w: World, isData: string -> bool, name: string, v: Version) {
    TAG in v.tags ==> exists k, g :: Marks(w, isData, name, v, k, g)
  }

  predicate Marks(w: World, isData: string -> bool, name: string, v: Version, k: string, g: Given) {
    TAG in v.tags && v.tags[TAG] == Fingerprint(w, k, name, ValueOf(w, g)) && Agrees(w, v.value, g) &&
      g.Data? == isData(name)
  }

  ghost predicate AllTruthful(w: World, isData: string -> bool, s: Store) {
    forall n, i :: n in s && 0 <= i < |s[n]| ==> Truthful(w, isData, n, s[n][i])
  }

  /** A store no run has tagged yet. */
  predicate Untagged(s: Store) {
    forall n, i :: n in s && 0 <= i < |s[n]| ==> TAG !in s[n][i].tags
  }

  lemma GivenAgreesWithItself(w: World, g: Given)
    requires Assumed(w)
    ensures Agrees(w, ValueOf(w, g), g)
  {
  }

  lemma CallKeepsTruthful(w: World, isData: string -> bool, s: Store, c: Call)
    requires Assumed(w) && AllTruthful(w, isData, s) && Allowed(w, isData, s, c)
    ensures AllTruthful(w, isData, Apply(w, s, c))
  {
    var t := Apply(w, s, c);
    forall n, i | n in t && 0 <= i < |t[n]| ensures Truthful(w, isData, n, t[n][i]) {
      if n == c.name && c.SetValue? && i == |Versions(s, n)| {
        GivenAgreesWithItself(w, c.given);
        if c.key.Some? { assert Marks(w, isData, n, t[n][i], c.key.value, c.given); }
      } else if n == c.name && c.TagVersion? && i == c.version {
        assert Marks(w, isData, n, t[n][i], c.markKey, c.given);
      } else if n == c.name && c.Edit? && i == |Versions(s, n)| {
      } else {
        assert n in s && t[n][i] == s[n][i];
      }
    }
  }

  /** Over every sequence of hand edits, deletions, key changes and runs' calls, however they
      interleave, every fingerprint tag is of a value its version agrees with. */
  lemma {:induction false} HistoryKeepsTruthful(w: World, isData: string -> bool, s: Store, calls: seq<Call>)
    requires Assumed(w) && AllTruthful(w, isData, s) && AllAllowed(w, isData, s, calls)
    ensures AllTruthful(w, isData, ApplyAll(w, s, calls))
    decreases |calls|
  {
    if calls != [] {
      CallKeepsTruthful(w, isData, s, calls[0]);
      HistoryKeepsTruthful(w, isData, Apply(w, s, calls[0]), calls[1..]);
    }
  }

  /** A matching fingerprint means the held value agrees with what NetBox gives. */
  lemma MatchMeansAgree(w: World, isData: string -> bool, name: string, v: Version, key: string, g: Given)
    requires Assumed(w) && NoNul(name) && Truthful(w, isData, name, v) && g.Data? == isData(name)
    requires TAG in v.tags && v.tags[TAG] == Fingerprint(w, key, name, ValueOf(w, g))
    ensures Agrees(w, v.value, g)
  {
    var k, g0 :| Marks(w, isData, name, v, k, g0);
    FingerprintInjective(w, k, name, ValueOf(w, g0), key, name, ValueOf(w, g));
    if g.Data? {
      assert Same(w.loads(w.dumps(g.json)).value, g.json) && Same(w.loads(w.dumps(g0.json)).value, g0.json);
    }
  }

  /** Why a name must keep giving text or keep giving data: a value tagged as data and held in
      another layout is skipped for text that reads the same, though the two differ. Exactly then. */
  lemma SkipAcrossKinds(w: World, held: string, g0: Given, g: Given)
    requires Assumed(w) && Agrees(w, held, g0) && ValueOf(w, g0) == ValueOf(w, g)
    ensures Agrees(w, held, g) <==> !(g0.Data? && g.Plain? && held != w.dumps(g0.json))
  {
    GivenAgreesWithItself(w, g0);
    GivenAgreesWithItself(w, g);
  }

  // ---- a run ----------------------------------------------------------------------------

  /** How Key Vault answers a run about one name: whether it can be read, takes a write
      (HTTP 200), and can be read back. */
  datatype Answers = Answers(read: bool, takes: bool, readsBack: bool)
  datatype Outcome = NotMade | Left | ByPrint | Unread | Agreed | PrintAdded | PrintNotAdded | Differs | WasSet | NotSet
  datatype Turn = Turn(calls: seq<Call>, outcome: Outcome, stops: bool)

  function Mark(w: World, key: Option<string>, name: string, g: Given): Option<string> {
    if key.Some? && key.value != "" then Some(Fingerprint(w, key.value, name, ValueOf(w, g))) else None
  }

  function Tag(tags: map<string, string>): Option<string> {
    if TAG in tags then Some(tags[TAG]) else None
  }

  function Tags(s: Store, name: string): map<string, string> {
    match Current(s, name)
    case Some(v) => v.tags
    case None => map[]
  }

  /** What a run does about one name, reading it from `s`; `listed` holds the tags the
      listing gave when the run began. */
  function TurnOf(w: World, s: Store, listed: map<string, string>, key: Option<string>, fact: Fact,
                  writer: bool, full: bool, a: Answers): Turn {
    match fact.made
    case Failed => Turn([], NotMade, false)
    case LeftAlone => Turn([], Left, false)
    case Gives(g) =>
      var mark := Mark(w, key, fact.name, g);
      if mark.Some? && !full && Tag(listed) == mark then Turn([], ByPrint, false)
      else if !a.read then Turn([], Unread, false)
      else ReadTurn(w, s, key, fact.name, g, mark, writer, a)
  }

  function ReadTurn(w: World, s: Store, key: Option<string>, name: string, g: Given, mark: Option<string>,
                    writer: bool, a: Answers): Turn {
    var have := match Current(s, name) case Some(v) => Some(v.value) case None => None;
    if Agree(w, have, g).same then
      if writer && mark.Some? && key.Some? && Tag(Tags(s, name)) != mark then
        if !a.takes then Turn([], PrintNotAdded, false)
        else Turn([TagVersion(name, |Versions(s, name)| - 1, g, key.value)], PrintAdded, !a.readsBack)
      else Turn([], Agreed, false)
    else if !writer then Turn([], Differs, false)
    else if !a.takes then Turn([], NotSet, false)
    else Turn([SetValue(name, g, if mark.Some? then key else None)], if a.readsBack then WasSet else NotSet, false)
  }

  datatype Report = Report(store: Store, calls: seq<Call>, outcomes: seq<(string, Outcome)>, stopped: bool)

  /** Every name's turn, in order; a read-back of a tag that fails stops the run. */
  function RunFrom(w: World, s: Store, listing: Store, key: Option<string>, facts: seq<Fact>, writer: bool, full: bool,
                   answers: string -> Answers): Report
    decreases |facts|
  {
    if facts == [] then Report(s, [], [], false)
    else
      var n := facts[0].name;
      var t := TurnOf(w, s, Tags(listing, n), key, facts[0], writer, full, answers(n));
      var s' := ApplyAll(w, s, t.calls);
      if t.stops then Report(s', t.calls, [(n, t.outcome)], true)
      else
        var rest := RunFrom(w, s', listing, key, facts[1..], writer, full, answers);
        Report(rest.store, t.calls + rest.calls, [(n, t.outcome)] + rest.outcomes, rest.stopped)
  }

  function KeyOf(s: Store): Option<string> {
    match Current(s, FINGERPRINT_KEY)
    case Some(v) => Some(v.value)
    case None => None
  }

  function Run(w: World, s: Store, facts: seq<Fact>, writer: bool, full: bool, answers: string -> Answers): Report {
    RunFrom(w, s, s, KeyOf(s), facts, writer, full, answers)
  }

  predicate WellMapped(facts: seq<Fact>, isData: string -> bool) {
    && (forall i, j :: 0 <= i < j < |facts| ==> facts[i].name != facts[j].name)
    && (forall i :: 0 <= i < |facts| ==>
         NoNul(facts[i].name) && (facts[i].made.Gives? ==> facts[i].made.given.Data? == isData(facts[i].name)))
  }

  lemma {:induction false} ApplyAllSplit(w: World, s: Store, a: seq<Call>, b: seq<Call>)
    ensures ApplyAll(w, s, a + b) == ApplyAll(w, ApplyAll(w, s, a), b)
    decreases |a|
  {
    if a == [] { assert a + b == b; } else {
      assert (a + b)[1..] == a[1..] + b;
      ApplyAllSplit(w, Apply(w, s, a[0]), a[1..], b);
    }
  }

  lemma {:induction false} AllAllowedSplit(w: World, isData: string -> bool, s: Store, a: seq<Call>, b: seq<Call>)
    requires AllAllowed(w, isData, s, a) && AllAllowed(w, isData, ApplyAll(w, s, a), b)
    ensures AllAllowed(w, isData, s, a + b)
    decreases |a|
  {
    if a == [] { assert a + b == b; } else {
      assert (a + b)[1..] == a[1..] + b;
      AllAllowedSplit(w, isData, Apply(w, s, a[0]), a[1..], b);
    }
  }

  lemma TurnIsAllowed(w: World, isData: string -> bool, s: Store, listed: map<string, string>, key: Option<string>,
                      fact: Fact, writer: bool, full: bool, a: Answers)
    requires NoNul(fact.name) && (fact.made.Gives? ==> fact.made.given.Data? == isData(fact.name))
    ensures AllAllowed(w, isData, s, TurnOf(w, s, listed, key, fact, writer, full, a).calls)
  {
    if fact.made.Gives? {
      var have := match Current(s, fact.name) case Some(v) => Some(v.value) case None => None;
      AgreeIsAgrees(w, have, fact.made.given);
    }
  }

  /** A run changes Key Vault only by calls a history allows. */
  lemma {:induction false} RunIsAllowed(w: World, isData: string -> bool, s: Store, listing: Store,
                                        key: Option<string>, facts: seq<Fact>,
                                        writer: bool, full: bool, answers: string -> Answers)
    requires WellMapped(facts, isData)
    ensures var r := RunFrom(w, s, listing, key, facts, writer, full, answers);
      AllAllowed(w, isData, s, r.calls) && r.store == ApplyAll(w, s, r.calls)
    decreases |facts|
  {
    if facts != [] {
      var n := facts[0].name;
      var t := TurnOf(w, s, Tags(listing, n), key, facts[0], writer, full, answers(n));
      TurnIsAllowed(w, isData, s, Tags(listing, n), key, facts[0], writer, full, answers(n));
      if !t.stops {
        var s' := ApplyAll(w, s, t.calls);
        RunIsAllowed(w, isData, s', listing, key, facts[1..], writer, full, answers);
        var rest := RunFrom(w, s', listing, key, facts[1..], writer, full, answers);
        AllAllowedSplit(w, isData, s, t.calls, rest.calls);
        ApplyAllSplit(w, s, t.calls, rest.calls);
      }
    }
  }

  /** A fast run's outcome for a name, against a full run's: the same, or skipped where the
      full run finds agreement or, unable to read the value, can't tell. */
  predicate SameOutcome(fast: Outcome, full: Outcome, read: bool) {
    fast == full || (fast == ByPrint && full == if read then Agreed else Unread)
  }

  predicate SameOutcomes(fast: seq<(string, Outcome)>, full: seq<(string, Outcome)>, answers: string -> Answers) {
    && |fast| == |full|
    && forall i :: 0 <= i < |fast| ==>
       fast[i].0 == full[i].0 && SameOutcome(fast[i].1, full[i].1, answers(fast[i].0).read)
  }

  lemma TurnTouchesItsName(w: World, s: Store, listed: map<string, string>, key: Option<string>, fact: Fact,
                           writer: bool, full: bool, a: Answers, other: string)
    requires other != fact.name
    ensures Versions(ApplyAll(w, s, TurnOf(w, s, listed, key, fact, writer, full, a).calls), other) ==
      Versions(s, other)
  {
    var calls := TurnOf(w, s, listed, key, fact, writer, full, a).calls;
    if calls != [] { assert ApplyAll(w, s, calls) == Apply(w, s, calls[0]) by { assert calls[1..] == []; } }
  }

  lemma FastTurnIsFullTurn(w: World, isData: string -> bool, s: Store, listing: Store, key: Option<string>, fact: Fact,
                           writer: bool, a: Answers)
    requires Assumed(w) && AllTruthful(w, isData, listing) && Versions(s, fact.name) == Versions(listing, fact.name)
    requires NoNul(fact.name) && (fact.made.Gives? ==> fact.made.given.Data? == isData(fact.name))
    ensures var fast := TurnOf(w, s, Tags(listing, fact.name), key, fact, writer, false, a);
      var full := TurnOf(w, s, Tags(listing, fact.name), key, fact, writer, true, a);
      fast.calls == full.calls && fast.stops == full.stops && SameOutcome(fast.outcome, full.outcome, a.read)
  {
    if fact.made.Gives? {
      var g, n := fact.made.given, fact.name;
      var mark := Mark(w, key, n, g);
      if mark.Some? && Tag(Tags(listing, n)) == mark {
        var v := Current(listing, n).value;
        assert n in listing && v == listing[n][|listing[n]| - 1] && Truthful(w, isData, n, v);
        MatchMeansAgree(w, isData, n, v, key.value, g);
        AgreeIsAgrees(w, Some(v.value), g);
        assert Current(s, n) == Some(v);
      }
    }
  }

  /** Skipping by fingerprint gives the verdict, and makes the calls, of a run that reads
      every value: on any Key Vault a history of hand edits and runs can have left. */
  lemma {:induction false} FastRunIsFullRun(w: World, isData: string -> bool, s: Store, listing: Store,
                                            key: Option<string>, facts: seq<Fact>,
                                            writer: bool, answers: string -> Answers)
    requires Assumed(w) && AllTruthful(w, isData, listing) && WellMapped(facts, isData)
    requires forall i :: 0 <= i < |facts| ==> Versions(s, facts[i].name) == Versions(listing, facts[i].name)
    ensures var fast := RunFrom(w, s, listing, key, facts, writer, false, answers);
      var full := RunFrom(w, s, listing, key, facts, writer, true, answers);
      && fast.store == full.store && fast.calls == full.calls && fast.stopped == full.stopped
      && SameOutcomes(fast.outcomes, full.outcomes, answers)
    decreases |facts|
  {
    if facts != [] {
      var n, a := facts[0].name, answers(facts[0].name);
      FastTurnIsFullTurn(w, isData, s, listing, key, facts[0], writer, a);
      var t := TurnOf(w, s, Tags(listing, n), key, facts[0], writer, true, a);
      if !t.stops {
        RestIsAsListed(w, isData, s, listing, key, facts, writer, a);
        FastRunIsFullRun(w, isData, ApplyAll(w, s, t.calls), listing, key, facts[1..], writer, answers);
      }
    }
  }

  lemma RestIsAsListed(w: World, isData: string -> bool, s: Store, listing: Store, key: Option<string>,
                       facts: seq<Fact>, writer: bool, a: Answers)
    requires facts != [] && WellMapped(facts, isData)
    requires forall i :: 0 <= i < |facts| ==> Versions(s, facts[i].name) == Versions(listing, facts[i].name)
    ensures WellMapped(facts[1..], isData)
    ensures var t := TurnOf(w, s, Tags(listing, facts[0].name), key, facts[0], writer, true, a);
      var s', rest := ApplyAll(w, s, t.calls), facts[1..];
      forall i :: 0 <= i < |rest| ==> Versions(s', rest[i].name) == Versions(listing, rest[i].name)
  {
    var listed, rest := Tags(listing, facts[0].name), facts[1..];
    assert forall i :: 0 <= i < |rest| ==> rest[i] == facts[i + 1];
    forall i | 0 <= i < |rest| {
      TurnTouchesItsName(w, s, listed, key, facts[0], writer, true, a, rest[i].name);
    }
  }

  /** The input that shows what SkipAcrossKinds says: Key Vault holds "{ }", tagged by a run that gave it
      as data, and the name now gives the text "{}". A fast run skips it; a full one finds that they differ. */
  lemma LayoutIsSkipped(w: World, k: string, n: string, writer: bool, a: Answers)
    requires Assumed(w) && k != "" && a.read
    requires w.dumps(Obj(map[])) == "{}" && w.loads("{ }") == Some(Obj(map[]))
    ensures var s := ApplyAll(w, map[], [Edit(n, "{ }"), TagVersion(n, 0, Data(Obj(map[])), k)]);
      var now := Fact(n, Gives(Plain("{}")));
      && TurnOf(w, s, Tags(s, n), Some(k), now, writer, false, a).outcome == ByPrint
      && TurnOf(w, s, Tags(s, n), Some(k), now, writer, true, a).outcome in {Differs, WasSet, NotSet}
  {
    var edit, tag := Edit(n, "{ }"), TagVersion(n, 0, Data(Obj(map[])), k);
    assert [edit, tag][1..] == [tag] && [tag][1..] == [];
    var s1 := Apply(w, map[], edit);
    assert s1[n] == [Version("{ }", map[])];
    var s2 := Apply(w, s1, tag);
    OneCall(w, s1, tag);
    assert ApplyAll(w, map[], [edit, tag]) == ApplyAll(w, s1, [tag]) == s2;
    assert s2[n] == [Version("{ }", map[TAG := Fingerprint(w, k, n, "{}")])];
    assert "{ }"[1] != "{}"[1];
  }

  /** The whole claim: start from a Key Vault no run has tagged, let any allowed history
      happen, and the next run may skip what it likes. */
  lemma SkippingIsSafe(w: World, isData: string -> bool, start: Store, history: seq<Call>, facts: seq<Fact>,
                       writer: bool, answers: string -> Answers)
    requires Assumed(w) && Untagged(start) && AllAllowed(w, isData, start, history) && WellMapped(facts, isData)
    ensures var s := ApplyAll(w, start, history);
      var fast, full := Run(w, s, facts, writer, false, answers), Run(w, s, facts, writer, true, answers);
      fast.store == full.store && fast.calls == full.calls && fast.stopped == full.stopped &&
        SameOutcomes(fast.outcomes, full.outcomes, answers)
  {
    HistoryKeepsTruthful(w, isData, start, history);
    var s := ApplyAll(w, start, history);
    FastRunIsFullRun(w, isData, s, s, KeyOf(s), facts, writer, answers);
  }

  // ---- what a run leaves, name by name ------------------------------------------------------

  predicate HeldAgrees(w: World, vs: seq<Version>, g: Given) {
    vs != [] && Agrees(w, vs[|vs| - 1].value, g)
  }

  predicate Keyed(key: Option<string>) {
    key.Some? && key.value != ""
  }

  function LastTags(vs: seq<Version>): map<string, string> {
    if vs == [] then map[] else vs[|vs| - 1].tags
  }

  /** The current version carries the fingerprint of the value given now. */
  predicate Printed(w: World, key: Option<string>, name: string, g: Given, vs: seq<Version>) {
    && Keyed(key) && TAG in LastTags(vs)
    && LastTags(vs)[TAG] == Fingerprint(w, key.value, name, ValueOf(w, g))
  }

  /** A value is written: one is given, it can be read, Key Vault takes it, and what it holds disagrees. */
  predicate Sets(w: World, fact: Fact, vs: seq<Version>, writer: bool, a: Answers) {
    fact.made.Gives? && writer && a.read && a.takes && !HeldAgrees(w, vs, fact.made.given)
  }

  /** A fingerprint is written: what Key Vault holds agrees and doesn't carry it yet. */
  predicate Prints(w: World, key: Option<string>, fact: Fact, vs: seq<Version>, writer: bool, a: Answers) {
    && fact.made.Gives? && writer && a.read && a.takes && HeldAgrees(w, vs, fact.made.given)
    && Keyed(key) && !Printed(w, key, fact.name, fact.made.given, vs)
  }

  /** The read-back of a fingerprint fails, which ends the run. */
  predicate Halts(w: World, key: Option<string>, fact: Fact, vs: seq<Version>, writer: bool, a: Answers) {
    Prints(w, key, fact, vs, writer, a) && !a.readsBack
  }

  predicate FailsOn(w: World, key: Option<string>, fact: Fact, vs: seq<Version>, writer: bool, full: bool, a: Answers) {
    match fact.made
    case Failed => true
    case LeftAlone => false
    case Gives(g) =>
      if !a.read then full || !Printed(w, key, fact.name, g, vs)
      else if !writer then false
      else if HeldAgrees(w, vs, g) then Keyed(key) && !Printed(w, key, fact.name, g, vs) && !a.takes
      else !a.takes || !a.readsBack
  }

  /** The tags written: the fingerprint, or none without a key, and every other tag as it was. */
  predicate TagsWritten(w: World, key: Option<string>, name: string, g: Given,
                        was: map<string, string>, now: map<string, string>)
  {
    && now - {TAG} == was - {TAG}
    && (if Keyed(key) then TAG in now && now[TAG] == Fingerprint(w, key.value, name, ValueOf(w, g)) else TAG !in now)
  }

  /** A name's versions before its turn and after it. */
  predicate EndsAs(w: World, key: Option<string>, fact: Fact, vs: seq<Version>, ws: seq<Version>, writer: bool,
                   a: Answers)
  {
    if Sets(w, fact, vs, writer, a) then
      && |ws| == |vs| + 1 && ws[..|vs|] == vs && ws[|vs|].value == ValueOf(w, fact.made.given)
      && TagsWritten(w, key, fact.name, fact.made.given, LastTags(vs), ws[|vs|].tags)
    else if Prints(w, key, fact, vs, writer, a) then
      && |ws| == |vs| && ws[..|vs| - 1] == vs[..|vs| - 1] && ws[|vs| - 1].value == vs[|vs| - 1].value
      && TagsWritten(w, key, fact.name, fact.made.given, LastTags(vs), ws[|vs| - 1].tags)
    else ws == vs
  }

  lemma CurrentIsLast(s: Store, name: string)
    ensures Current(s, name) == if Versions(s, name) == [] then None
      else Some(Versions(s, name)[|Versions(s, name)| - 1])
    ensures Tags(s, name) == LastTags(Versions(s, name))
  {
  }

  lemma SetEnds(w: World, s: Store, key: Option<string>, fact: Fact, writer: bool, a: Answers)
    requires Sets(w, fact, Versions(s, fact.name), writer, a)
    ensures var put := SetValue(fact.name, fact.made.given, if Keyed(key) then key else None);
      EndsAs(w, key, fact, Versions(s, fact.name), Versions(Apply(w, s, put), fact.name), writer, a)
  {
    CurrentIsLast(s, fact.name);
  }

  lemma PrintEnds(w: World, s: Store, key: Option<string>, fact: Fact, writer: bool, a: Answers)
    requires Prints(w, key, fact, Versions(s, fact.name), writer, a)
    ensures var tag := TagVersion(fact.name, |Versions(s, fact.name)| - 1, fact.made.given, key.value);
      EndsAs(w, key, fact, Versions(s, fact.name), Versions(Apply(w, s, tag), fact.name), writer, a)
  {
    CurrentIsLast(s, fact.name);
  }

  /** A skipped name agrees. */
  lemma PrintedAgrees(w: World, isData: string -> bool, key: Option<string>, fact: Fact, listing: Store)
    requires Assumed(w) && AllTruthful(w, isData, listing) && NoNul(fact.name)
    requires fact.made.Gives? && fact.made.given.Data? == isData(fact.name)
    requires Printed(w, key, fact.name, fact.made.given, Versions(listing, fact.name))
    ensures HeldAgrees(w, Versions(listing, fact.name), fact.made.given)
  {
    var vs, n := Versions(listing, fact.name), fact.name;
    assert n in listing && vs == listing[n] && vs != [];
    assert Truthful(w, isData, n, vs[|vs| - 1]);
    MatchMeansAgree(w, isData, n, vs[|vs| - 1], key.value, fact.made.given);
  }

  /** The half of a turn that reads the value, said of the versions. */
  lemma ReadTurnIs(w: World, s: Store, key: Option<string>, fact: Fact, writer: bool, a: Answers)
    requires fact.made.Gives? && a.read
    ensures var g, n, vs := fact.made.given, fact.name, Versions(s, fact.name);
      var t := ReadTurn(w, s, key, n, g, Mark(w, key, n, g), writer, a);
      && t.calls == (if Sets(w, fact, vs, writer, a) then [SetValue(n, g, if Keyed(key) then key else None)]
                     else if Prints(w, key, fact, vs, writer, a) then [TagVersion(n, |vs| - 1, g, key.value)] else [])
      && (t.stops <==> Halts(w, key, fact, vs, writer, a))
      && (t.outcome == WasSet <==> Sets(w, fact, vs, writer, a) && a.readsBack)
      && (Fails(t.outcome) <==> FailsOn(w, key, fact, vs, writer, true, a))
  {
    var g, n, vs := fact.made.given, fact.name, Versions(s, fact.name);
    CurrentIsLast(s, n);
    var have := match Current(s, n) case Some(v) => Some(v.value) case None => None;
    AgreeIsAgrees(w, have, g);
  }

  /** One name's turn, said of its versions. */
  lemma TurnIs(w: World, isData: string -> bool, s: Store, listing: Store, key: Option<string>, fact: Fact,
               writer: bool, full: bool, a: Answers)
    requires Assumed(w) && AllTruthful(w, isData, listing) && Versions(s, fact.name) == Versions(listing, fact.name)
    requires NoNul(fact.name) && fact.made.Gives? && fact.made.given.Data? == isData(fact.name)
    ensures var g, n, vs := fact.made.given, fact.name, Versions(s, fact.name);
      var t := TurnOf(w, s, Tags(listing, n), key, fact, writer, full, a);
      && t.calls == (if Sets(w, fact, vs, writer, a) then [SetValue(n, g, if Keyed(key) then key else None)]
                     else if Prints(w, key, fact, vs, writer, a) then [TagVersion(n, |vs| - 1, g, key.value)] else [])
      && (t.stops <==> Halts(w, key, fact, vs, writer, a))
      && (t.outcome == WasSet <==> Sets(w, fact, vs, writer, a) && a.readsBack)
      && (Fails(t.outcome) <==> FailsOn(w, key, fact, vs, writer, full, a))
  {
    var g, n, vs := fact.made.given, fact.name, Versions(s, fact.name);
    CurrentIsLast(listing, n);
    if a.read { ReadTurnIs(w, s, key, fact, writer, a); }
    if Printed(w, key, n, g, vs) { PrintedAgrees(w, isData, key, fact, listing); }
  }

  lemma TurnEnds(w: World, isData: string -> bool, s: Store, listing: Store, key: Option<string>, fact: Fact,
                 writer: bool, full: bool, a: Answers)
    requires Assumed(w) && AllTruthful(w, isData, listing) && Versions(s, fact.name) == Versions(listing, fact.name)
    requires NoNul(fact.name) && (fact.made.Gives? ==> fact.made.given.Data? == isData(fact.name))
    ensures var t, vs := TurnOf(w, s, Tags(listing, fact.name), key, fact, writer, full, a), Versions(s, fact.name);
      && EndsAs(w, key, fact, vs, Versions(ApplyAll(w, s, t.calls), fact.name), writer, a)
      && (t.stops <==> Halts(w, key, fact, vs, writer, a))
      && (t.outcome == WasSet <==> Sets(w, fact, vs, writer, a) && a.readsBack)
      && (Fails(t.outcome) <==> FailsOn(w, key, fact, vs, writer, full, a))
      && (!writer ==> t.calls == [])
  {
    if fact.made.Gives? {
      var g, n, vs := fact.made.given, fact.name, Versions(s, fact.name);
      TurnIs(w, isData, s, listing, key, fact, writer, full, a);
      if Sets(w, fact, vs, writer, a) {
        SetEnds(w, s, key, fact, writer, a);
        OneCall(w, s, SetValue(n, g, if Keyed(key) then key else None));
      } else if Prints(w, key, fact, vs, writer, a) {
        PrintEnds(w, s, key, fact, writer, a);
        OneCall(w, s, TagVersion(n, |vs| - 1, g, key.value));
      }
    }
  }

  predicate AnyHalts(w: World, key: Option<string>, before: Store, facts: seq<Fact>, writer: bool,
                     answers: string -> Answers)
  {
    facts != [] && (Halts(w, key, facts[0], Versions(before, facts[0].name), writer, answers(facts[0].name))
                    || AnyHalts(w, key, before, facts[1..], writer, answers))
  }

  predicate AnyFailsOn(w: World, key: Option<string>, before: Store, facts: seq<Fact>, writer: bool, full: bool,
                       answers: string -> Answers)
  {
    facts != [] &&
    var vs, a := Versions(before, facts[0].name), answers(facts[0].name);
    FailsOn(w, key, facts[0], vs, writer, full, a)
    || (!Halts(w, key, facts[0], vs, writer, a) && AnyFailsOn(w, key, before, facts[1..], writer, full, answers))
  }

  /** The names set, up to where the run halts. */
  function SetNames(w: World, key: Option<string>, before: Store, facts: seq<Fact>, writer: bool,
                    answers: string -> Answers): seq<string>
  {
    if facts == [] then [] else
      var vs, a := Versions(before, facts[0].name), answers(facts[0].name);
      if Halts(w, key, facts[0], vs, writer, a) then [] else
        (if Sets(w, facts[0], vs, writer, a) && a.readsBack then [facts[0].name] else []) +
        SetNames(w, key, before, facts[1..], writer, answers)
  }

  /** Each name's versions after its turn; those of the names past a halt are as they were. */
  predicate AllEndAs(w: World, key: Option<string>, before: Store, after: Store, facts: seq<Fact>, writer: bool,
                     answers: string -> Answers)
  {
    facts == [] ||
    var n := facts[0].name;
    var vs, a := Versions(before, n), answers(n);
    && EndsAs(w, key, facts[0], vs, Versions(after, n), writer, a)
    && (if Halts(w, key, facts[0], vs, writer, a) then Untouched(before, after, facts[1..])
        else AllEndAs(w, key, before, after, facts[1..], writer, answers))
  }

  predicate Untouched(before: Store, after: Store, facts: seq<Fact>) {
    forall i :: 0 <= i < |facts| ==> Versions(after, facts[i].name) == Versions(before, facts[i].name)
  }

  predicate Mapped(facts: seq<Fact>, name: string) {
    exists i :: 0 <= i < |facts| && facts[i].name == name
  }

  /** All a run leaves: its exit code, the names it says it set, and every name's versions. */
  ghost predicate RunLeaves(w: World, before: Store, after: Store, facts: seq<Fact>, writer: bool, full: bool,
                            answers: string -> Answers, code: nat, changed: seq<string>)
  {
    var key := KeyOf(before);
    && code == (if AnyHalts(w, key, before, facts, writer, answers) then 1
                else if AnyFailsOn(w, key, before, facts, writer, full, answers) then 1
                else 0)
    && changed == SetNames(w, key, before, facts, writer, answers)
    && AllEndAs(w, key, before, after, facts, writer, answers)
    && (forall n :: !Mapped(facts, n) ==> Versions(after, n) == Versions(before, n))
    && (!writer ==> after == before)
  }

  lemma {:induction false} RunKeepsUnmapped(w: World, s: Store, listing: Store, key: Option<string>, facts: seq<Fact>,
                                            writer: bool, full: bool, answers: string -> Answers, n: string)
    requires !Mapped(facts, n)
    ensures Versions(RunFrom(w, s, listing, key, facts, writer, full, answers).store, n) == Versions(s, n)
    decreases |facts|
  {
    if facts != [] {
      var m := facts[0].name;
      var t := TurnOf(w, s, Tags(listing, m), key, facts[0], writer, full, answers(m));
      TurnTouchesItsName(w, s, Tags(listing, m), key, facts[0], writer, full, answers(m), n);
      assert forall i :: 0 <= i < |facts[1..]| ==> facts[1..][i] == facts[i + 1];
      if !t.stops { RunKeepsUnmapped(w, ApplyAll(w, s, t.calls), listing, key, facts[1..], writer, full, answers, n); }
    }
  }

  /** What a run says it did, said of what Key Vault held when it began. */
  lemma {:induction false} RunFromSays(w: World, isData: string -> bool, s: Store, listing: Store, key: Option<string>,
                                       facts: seq<Fact>, writer: bool, full: bool, answers: string -> Answers)
    requires Assumed(w) && AllTruthful(w, isData, listing) && WellMapped(facts, isData) && Untouched(listing, s, facts)
    ensures var r := RunFrom(w, s, listing, key, facts, writer, full, answers);
      && (r.stopped <==> AnyHalts(w, key, listing, facts, writer, answers))
      && (AnyFails(r.outcomes) <==> AnyFailsOn(w, key, listing, facts, writer, full, answers))
      && Changed(r.outcomes) == SetNames(w, key, listing, facts, writer, answers)
    decreases |facts|
  {
    if facts != [] {
      var n := facts[0].name;
      var a, rest := answers(n), facts[1..];
      var t := TurnOf(w, s, Tags(listing, n), key, facts[0], writer, full, a);
      var s' := ApplyAll(w, s, t.calls);
      TurnEnds(w, isData, s, listing, key, facts[0], writer, full, a);
      RestUntouched(w, isData, s, listing, key, facts, writer, full, a);
      if t.stops {
        OneOutcome(n, t.outcome, []);
      } else {
        RunFromSays(w, isData, s', listing, key, rest, writer, full, answers);
        OneOutcome(n, t.outcome, RunFrom(w, s', listing, key, rest, writer, full, answers).outcomes);
      }
    }
  }

  lemma OneOutcome(n: string, o: Outcome, rest: seq<(string, Outcome)>)
    ensures Changed([(n, o)] + rest) == (if o == WasSet then [n] else []) + Changed(rest)
    ensures AnyFails([(n, o)] + rest) <==> Fails(o) || AnyFails(rest)
    ensures [(n, o)] + [] == [(n, o)]
  {
    assert ([(n, o)] + rest)[1..] == rest;
  }

  /** And what it did. */
  lemma {:induction false} RunFromEnds(w: World, isData: string -> bool, s: Store, listing: Store, key: Option<string>,
                                       facts: seq<Fact>, writer: bool, full: bool, answers: string -> Answers)
    requires Assumed(w) && AllTruthful(w, isData, listing) && WellMapped(facts, isData) && Untouched(listing, s, facts)
    ensures var r := RunFrom(w, s, listing, key, facts, writer, full, answers);
      AllEndAs(w, key, listing, r.store, facts, writer, answers) && (!writer ==> r.store == s)
    decreases |facts|
  {
    if facts != [] {
      var n := facts[0].name;
      var a, rest := answers(n), facts[1..];
      var t := TurnOf(w, s, Tags(listing, n), key, facts[0], writer, full, a);
      var s' := ApplyAll(w, s, t.calls);
      TurnEnds(w, isData, s, listing, key, facts[0], writer, full, a);
      RestUntouched(w, isData, s, listing, key, facts, writer, full, a);
      if !t.stops {
        RunFromEnds(w, isData, s', listing, key, rest, writer, full, answers);
        RunKeepsUnmapped(w, s', listing, key, rest, writer, full, answers, n);
      }
    }
  }

  lemma RestUntouched(w: World, isData: string -> bool, s: Store, listing: Store, key: Option<string>, facts: seq<Fact>,
                      writer: bool, full: bool, a: Answers)
    requires facts != [] && WellMapped(facts, isData) && Untouched(listing, s, facts)
    ensures WellMapped(facts[1..], isData) && !Mapped(facts[1..], facts[0].name)
    ensures var t := TurnOf(w, s, Tags(listing, facts[0].name), key, facts[0], writer, full, a);
      Untouched(listing, ApplyAll(w, s, t.calls), facts[1..])
  {
    var rest := facts[1..];
    assert forall i :: 0 <= i < |rest| ==> rest[i] == facts[i + 1];
    forall i | 0 <= i < |rest| {
      TurnTouchesItsName(w, s, Tags(listing, facts[0].name), key, facts[0], writer, full, a, rest[i].name);
    }
  }

  lemma RunEnds(w: World, isData: string -> bool, s: Store, facts: seq<Fact>, writer: bool, full: bool,
                answers: string -> Answers)
    requires Assumed(w) && AllTruthful(w, isData, s) && WellMapped(facts, isData)
    ensures var r := Run(w, s, facts, writer, full, answers);
      RunLeaves(w, s, r.store, facts, writer, full, answers,
        if r.stopped || AnyFails(r.outcomes) then 1 else 0, Changed(r.outcomes))
  {
    RunFromSays(w, isData, s, s, KeyOf(s), facts, writer, full, answers);
    RunFromEnds(w, isData, s, s, KeyOf(s), facts, writer, full, answers);
    forall n | !Mapped(facts, n) { RunKeepsUnmapped(w, s, s, KeyOf(s), facts, writer, full, answers, n); }
  }

  /** What exit code 0 of a writing run promises: every fact that gives a value is held in Key Vault. */
  lemma {:induction false} ExitZeroMeansHeld(w: World, isData: string -> bool, key: Option<string>, before: Store,
                                             after: Store, facts: seq<Fact>, full: bool,
                                             answers: string -> Answers, i: nat)
    requires Assumed(w) && AllTruthful(w, isData, before) && WellMapped(facts, isData) && i < |facts|
    requires AllEndAs(w, key, before, after, facts, true, answers)
    requires !AnyHalts(w, key, before, facts, true, answers) && !AnyFailsOn(w, key, before, facts, true, full, answers)
    ensures facts[i].made.Gives? ==> HeldAgrees(w, Versions(after, facts[i].name), facts[i].made.given)
  {
    if i > 0 {
      assert forall j :: 0 <= j < |facts[1..]| ==> facts[1..][j] == facts[j + 1];
      ExitZeroMeansHeld(w, isData, key, before, after, facts[1..], full, answers, i - 1);
    } else if facts[0].made.Gives? {
      GivenAgreesWithItself(w, facts[0].made.given);
      if Printed(w, key, facts[0].name, facts[0].made.given, Versions(before, facts[0].name)) {
        PrintedAgrees(w, isData, key, facts[0], before);
      }
    }
  }

  /** In a writing run that doesn't halt, a name Key Vault answers for ends held. */
  lemma {:induction false} AnsweredIsHeld(w: World, key: Option<string>, before: Store, after: Store, facts: seq<Fact>,
                                          answers: string -> Answers, i: nat)
    requires Assumed(w) && i < |facts|
    requires AllEndAs(w, key, before, after, facts, true, answers) && !AnyHalts(w, key, before, facts, true, answers)
    requires answers(facts[i].name).read && answers(facts[i].name).takes
    ensures facts[i].made.Gives? ==> HeldAgrees(w, Versions(after, facts[i].name), facts[i].made.given)
  {
    if i > 0 {
      assert forall j :: 0 <= j < |facts[1..]| ==> facts[1..][j] == facts[j + 1];
      AnsweredIsHeld(w, key, before, after, facts[1..], answers, i - 1);
    } else if facts[0].made.Gives? {
      GivenAgreesWithItself(w, facts[0].made.given);
    }
  }

  /** A name listed as changed holds the very value given, fingerprinted if there is a key. */
  lemma {:induction false} ChangedIsSet(w: World, key: Option<string>, before: Store, after: Store, facts: seq<Fact>,
                                        writer: bool, answers: string -> Answers, name: string) returns (i: nat)
    requires AllEndAs(w, key, before, after, facts, writer, answers)
    requires name in SetNames(w, key, before, facts, writer, answers)
    ensures i < |facts| && facts[i].name == name && facts[i].made.Gives? && writer
    ensures !HeldAgrees(w, Versions(before, name), facts[i].made.given)
    ensures var ws := Versions(after, name);
      ws != [] && ws[|ws| - 1].value == ValueOf(w, facts[i].made.given)
      && TagsWritten(w, key, name, facts[i].made.given, LastTags(Versions(before, name)), ws[|ws| - 1].tags)
  {
    var vs, a := Versions(before, facts[0].name), answers(facts[0].name);
    if Sets(w, facts[0], vs, writer, a) && a.readsBack && facts[0].name == name {
      i := 0;
    } else {
      i := ChangedIsSet(w, key, before, after, facts[1..], writer, answers, name);
      i := i + 1;
    }
  }

  // ---- the run as the program performs it -------------------------------------------------

  /** Key Vault as a run sees it. */
  class Vault {
    var secrets: Store

    method Read(name: string, readable: bool) returns (unread: bool, held: Option<Version>)
      ensures unread <==> !readable
      ensures !unread ==> held == Current(secrets, name)
    {
      unread := !readable;
      held := if unread then None else Current(secrets, name);
    }

    method Call(w: World, c: Call)
      modifies this
      ensures secrets == Apply(w, old(secrets), c)
    {
      secrets := Apply(w, secrets, c);
    }
  }

  predicate Fails(o: Outcome) {
    o == NotMade || o == Unread || o == PrintNotAdded || o == NotSet
  }

  function Changed(outcomes: seq<(string, Outcome)>): seq<string> {
    if outcomes == [] then [] else
      (if outcomes[0].1 == WasSet then [outcomes[0].0] else []) + Changed(outcomes[1..])
  }

  predicate AnyFails(outcomes: seq<(string, Outcome)>) {
    outcomes != [] && (Fails(outcomes[0].1) || AnyFails(outcomes[1..]))
  }

  lemma OneMore(outcomes: seq<(string, Outcome)>, o: (string, Outcome))
    ensures Changed(outcomes + [o]) == Changed(outcomes) + (if o.1 == WasSet then [o.0] else [])
    ensures AnyFails(outcomes + [o]) <==> AnyFails(outcomes) || Fails(o.1)
  {
    OneMoreChanged(outcomes, o);
    OneMoreFails(outcomes, o);
  }

  lemma {:induction false} OneMoreChanged(outcomes: seq<(string, Outcome)>, o: (string, Outcome))
    ensures Changed(outcomes + [o]) == Changed(outcomes) + (if o.1 == WasSet then [o.0] else [])
  {
    if outcomes == [] {
      assert outcomes + [o] == [o];
    } else {
      assert (outcomes + [o])[1..] == outcomes[1..] + [o];
      OneMoreChanged(outcomes[1..], o);
    }
  }

  lemma {:induction false} OneMoreFails(outcomes: seq<(string, Outcome)>, o: (string, Outcome))
    ensures AnyFails(outcomes + [o]) <==> AnyFails(outcomes) || Fails(o.1)
  {
    if outcomes == [] {
      assert outcomes + [o] == [o];
    } else {
      assert (outcomes + [o])[1..] == outcomes[1..] + [o];
      OneMoreFails(outcomes[1..], o);
    }
  }

  /** The run so far, and the run still to come, are the run. */
  ghost predicate Continues(r: Report, outcomes: seq<(string, Outcome)>, rest: Report) {
    r.store == rest.store && r.outcomes == outcomes + rest.outcomes && r.stopped == rest.stopped
  }

  lemma RunStep(w: World, s: Store, listing: Store, key: Option<string>, facts: seq<Fact>, i: nat, writer: bool,
                full: bool, answers: string -> Answers, r: Report, outcomes: seq<(string, Outcome)>)
    requires i < |facts| && Continues(r, outcomes, RunFrom(w, s, listing, key, facts[i..], writer, full, answers))
    ensures var n := facts[i].name;
      var t := TurnOf(w, s, Tags(listing, n), key, facts[i], writer, full, answers(n));
      var s' := ApplyAll(w, s, t.calls);
      var done := outcomes + [(n, t.outcome)];
      if t.stops then r.store == s' && r.outcomes == done && r.stopped
      else Continues(r, done, RunFrom(w, s', listing, key, facts[i + 1..], writer, full, answers))
  {
    assert facts[i..][1..] == facts[i + 1..];
    var n := facts[i].name;
    var t := TurnOf(w, s, Tags(listing, n), key, facts[i], writer, full, answers(n));
    var rest := RunFrom(w, s, listing, key, facts[i..], writer, full, answers);
    if t.stops {
      assert rest == Report(ApplyAll(w, s, t.calls), t.calls, [(n, t.outcome)], true);
    } else {
      var next := RunFrom(w, ApplyAll(w, s, t.calls), listing, key, facts[i + 1..], writer, full, answers);
      assert rest.outcomes == [(n, t.outcome)] + next.outcomes;
      assert outcomes + rest.outcomes == outcomes + [(n, t.outcome)] + next.outcomes;
    }
  }

  lemma OneCall(w: World, s: Store, c: Call)
    ensures ApplyAll(w, s, [c]) == Apply(w, s, c)
  {
    assert [c][1..] == [];
  }

  /** One name's turn once its value has to be read, call by call. */
  method ReadAndAct(vault: Vault, w: World, key: Option<string>, name: string, g: Given, mark: Option<string>,
                    writer: bool, a: Answers) returns (outcome: Outcome, stops: bool)
    requires a.read
    modifies vault
    ensures var t := ReadTurn(w, old(vault.secrets), key, name, g, mark, writer, a);
      outcome == t.outcome && stops == t.stops && vault.secrets == ApplyAll(w, old(vault.secrets), t.calls)
  {
    var unread, held := vault.Read(name, a.read);
    var have := if held.Some? then Some(held.value.value) else None;
    if Agree(w, have, g).same {
      var tags := if held.Some? then held.value.tags else map[];
      if writer && mark.Some? && key.Some? && Tag(tags) != mark {
        if !a.takes { return PrintNotAdded, false; }
        var c := TagVersion(name, |Versions(vault.secrets, name)| - 1, g, key.value);
        OneCall(w, vault.secrets, c);
        vault.Call(w, c);
        return PrintAdded, !a.readsBack;
      }
      return Agreed, false;
    }
    if !writer { return Differs, false; }
    if !a.takes { return NotSet, false; }
    var c := SetValue(name, g, if mark.Some? then key else None);
    OneCall(w, vault.secrets, c);
    vault.Call(w, c);
    return if a.readsBack then WasSet else NotSet, false;
  }

  /** One name's turn. */
  method TakeTurn(vault: Vault, w: World, listed: map<string, string>, key: Option<string>, fact: Fact,
                  writer: bool, full: bool, a: Answers) returns (outcome: Outcome, stops: bool)
    modifies vault
    ensures var t := TurnOf(w, old(vault.secrets), listed, key, fact, writer, full, a);
      outcome == t.outcome && stops == t.stops && vault.secrets == ApplyAll(w, old(vault.secrets), t.calls)
  {
    if fact.made.Failed? { return NotMade, false; }
    if fact.made.LeftAlone? { return Left, false; }
    var mark := Mark(w, key, fact.name, fact.made.given);
    if mark.Some? && !full && Tag(listed) == mark { return ByPrint, false; }
    if !a.read { return Unread, false; }
    outcome, stops := ReadAndAct(vault, w, key, fact.name, fact.made.given, mark, writer, a);
  }

  /** run: the exit code is 1 when a name fails or the run stops, and `changed` lists what it set. */
  method RunVault(vault: Vault, w: World, facts: seq<Fact>, writer: bool, full: bool, answers: string -> Answers,
                  ghost isData: string -> bool)
    returns (code: nat, changed: seq<string>)
    modifies vault
    ensures Assumed(w) && AllTruthful(w, isData, old(vault.secrets)) && WellMapped(facts, isData) ==>
      RunLeaves(w, old(vault.secrets), vault.secrets, facts, writer, full, answers, code, changed)
    ensures vault.secrets == Run(w, old(vault.secrets), facts, writer, full, answers).store
    ensures var r := Run(w, old(vault.secrets), facts, writer, full, answers);
      code == (if r.stopped || AnyFails(r.outcomes) then 1 else 0) && changed == Changed(r.outcomes)
  {
    var listing := vault.secrets;
    var key := KeyOf(listing);
    if Assumed(w) && AllTruthful(w, isData, listing) && WellMapped(facts, isData) {
      RunEnds(w, isData, listing, facts, writer, full, answers);
    }
    ghost var r := Run(w, listing, facts, writer, full, answers);
    ghost var outcomes: seq<(string, Outcome)> := [];
    var failed := false;
    changed := [];
    assert facts[0..] == facts;
    for i := 0 to |facts|
      invariant changed == Changed(outcomes) && failed == AnyFails(outcomes)
      invariant Continues(r, outcomes, RunFrom(w, vault.secrets, listing, key, facts[i..], writer, full, answers))
    {
      var n := facts[i].name;
      RunStep(w, vault.secrets, listing, key, facts, i, writer, full, answers, r, outcomes);
      var outcome, stops := TakeTurn(vault, w, Tags(listing, n), key, facts[i], writer, full, answers(n));
      OneMore(outcomes, (n, outcome));
      outcomes := outcomes + [(n, outcome)];
      failed := failed || Fails(outcome);
      if outcome == WasSet { changed := changed + [n]; }
      if stops { return 1, changed; }
    }
    assert facts[|facts|..] == [];
    assert r.outcomes == outcomes && !r.stopped by { assert outcomes + [] == outcomes; }
    code := if failed then 1 else 0;
  }
}
