/** The Python string operations the scripts use, on sequences of characters. */
module Text {
  datatype Option<+T> = None | Some(value: T)

  predicate EndsWith(s: string, suffix: string) {
    |suffix| <= |s| && s[|s| - |suffix|..] == suffix
  }

  /** `l` stands in `s` at offset `k`. */
  predicate OccursAt(l: string, s: string, k: int) {
    0 <= k <= |s| - |l| && s[k..k + |l|] == l
  }

  predicate Contains(s: string, l: string) {
    exists k :: 0 <= k <= |s| && OccursAt(l, s, k)
  }

  /** `str.replace(what, into)`: every leftmost, non-overlapping occurrence. An empty
      `what` stands before every character and at the end. */
  function Replace(s: string, what: string, into: string): string
    decreases |s|
  {
    if what == "" then
      if s == "" then into else into + [s[0]] + Replace(s[1..], what, into)
    else if s == "" then ""
    else if what <= s then into + Replace(s[|what|..], what, into)
    else [s[0]] + Replace(s[1..], what, into)
  }

  /** `str.find(c, k)`, giving the length of `s` where Python gives -1. */
  function Find(s: string, c: char, k: nat): (e: nat)
    requires k <= |s|
    ensures k <= e <= |s|
    ensures e < |s| ==> s[e] == c
    ensures forall i :: k <= i < e ==> s[i] != c
    decreases |s| - k
  {
    if k == |s| || s[k] == c then k else Find(s, c, k + 1)
  }

  function LowerChar(c: char): (r: char)
    ensures !('A' <= r <= 'Z')
  {
    if 'A' <= c <= 'Z' then c - 'A' + 'a' else c
  }

  predicate Letter(c: char) {
    'a' <= c <= 'z' || 'A' <= c <= 'Z'
  }

  /** `str.lower`, for the ASCII letters. */
  function Lower(s: string): string {
    seq(|s|, i requires 0 <= i < |s| => LowerChar(s[i]))
  }

  lemma LowerIdempotent(s: string)
    ensures Lower(Lower(s)) == Lower(s)
  {
  }

  lemma LowerConcat(a: string, b: string)
    ensures Lower(a + b) == Lower(a) + Lower(b)
  {
  }

  lemma LowerSlice(s: string, i: nat, j: nat)
    requires i <= j <= |s|
    ensures Lower(s[i..j]) == Lower(s)[i..j]
  {
  }

  /** `s.rstrip(".")`. */
  function RStripDots(s: string): string {
    if s != "" && s[|s| - 1] == '.' then RStripDots(s[..|s| - 1]) else s
  }

  /** The ASCII characters `str.split` and `str.strip` take for white space. */
  predicate IsSpace(c: char) {
    c == ' ' || '\t' <= c <= '\r' || 0x1c <= c as int <= 0x1f
  }

  function LStrip(s: string): string {
    if s != "" && IsSpace(s[0]) then LStrip(s[1..]) else s
  }

  function RStrip(s: string): string {
    if s != "" && IsSpace(s[|s| - 1]) then RStrip(s[..|s| - 1]) else s
  }

  /** `s.strip()`. */
  function Strip(s: string): string {
    LStrip(RStrip(s))
  }

  // ---- names label by label ------------------------------------------------------------------------

  /** `s.split(".")`. */
  function Labels(s: string): (ls: seq<string>)
    ensures ls != []
    decreases |s|
  {
    var k := Find(s, '.', 0);
    if k == |s| then [s] else [s[..k]] + Labels(s[k + 1..])
  }

  /** `".".join(ls)`. */
  function Dotted(ls: seq<string>): string
    requires ls != []
  {
    if |ls| == 1 then ls[0] else ls[0] + ("." + Dotted(ls[1..]))
  }

  lemma {:induction false} LabelsDotted(s: string)
    ensures Dotted(Labels(s)) == s
    decreases |s|
  {
    var k := Find(s, '.', 0);
    if k < |s| {
      LabelsDotted(s[k + 1..]);
      assert Labels(s)[1..] == Labels(s[k + 1..]);
      assert s == s[..k] + ("." + s[k + 1..]);
    }
  }

  lemma FirstDot(p: string, z: string)
    ensures Find(p + ("." + z), '.', 0) == Find(p, '.', 0)
  {
    var s := p + ("." + z);
    assert s[|p|] == '.' && forall i :: 0 <= i < |p| ==> s[i] == p[i];
  }

  lemma {:induction false} LabelsJoin(p: string, z: string)
    ensures Labels(p + ("." + z)) == Labels(p) + Labels(z)
    decreases |p|
  {
    var s, k := p + ("." + z), Find(p, '.', 0);
    FirstDot(p, z);
    if k == |p| {
      OneLabel(p, z);
    } else {
      LabelsJoin(p[k + 1..], z);
      DropLabel(p, z, k);
      LabelsCut(s, k);
      LabelsCut(p, k);
    }
  }

  lemma LabelsCut(s: string, k: nat)
    requires k == Find(s, '.', 0) < |s|
    ensures Labels(s) == [s[..k]] + Labels(s[k + 1..])
  {
  }

  lemma OneLabel(p: string, z: string)
    ensures (p + ("." + z))[..|p|] == p && (p + ("." + z))[|p| + 1..] == z
  {
  }

  lemma DropLabel(p: string, z: string, k: nat)
    requires k < |p|
    ensures (p + ("." + z))[..k] == p[..k] && (p + ("." + z))[k + 1..] == p[k + 1..] + ("." + z)
  {
  }

  lemma {:induction false} DottedJoin(a: seq<string>, b: seq<string>)
    requires a != [] && b != []
    ensures Dotted(a + b) == Dotted(a) + ("." + Dotted(b))
  {
    if |a| == 1 {
      assert (a + b)[1..] == b;
    } else {
      assert (a + b)[1..] == a[1..] + b;
      DottedJoin(a[1..], b);
      assert a[0] + ("." + (Dotted(a[1..]) + ("." + Dotted(b)))) == (a[0] + ("." + Dotted(a[1..]))) + ("." + Dotted(b));
    }
  }

  predicate EndsIn(ls: seq<string>, tail: seq<string>) {
    |tail| <= |ls| && ls[|ls| - |tail|..] == tail
  }

  /** The test for a name in a zone is a test on labels: the name's last labels are the zone's, whole. */
  lemma UnderByLabels(n: string, z: string)
    ensures (n == z || EndsWith(n, "." + z)) <==> EndsIn(Labels(n), Labels(z))
  {
    if EndsWith(n, "." + z) {
      var p := n[..|n| - |z| - 1];
      assert n == p + ("." + z);
      LabelsJoin(p, z);
    }
    if EndsIn(Labels(n), Labels(z)) {
      var k := |Labels(n)| - |Labels(z)|;
      var head := Labels(n)[..k];
      assert Labels(n) == head + Labels(z);
      LabelsDotted(n);
      LabelsDotted(z);
      if k > 0 {
        DottedJoin(head, Labels(z));
        assert (Dotted(head) + ("." + z))[|Dotted(head)|..] == "." + z;
      } else {
        assert head + Labels(z) == Labels(z);
      }
    }
  }
}
