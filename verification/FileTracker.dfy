/** The orphan sweep (scripts/k8s_backup/filetracker.py with sink.py): which files a phase had,
    which it wrote or kept, and so which it deletes. */
module FileTracker {
  import opened Sorting

  datatype Report = Report(added: seq<string>, modified: seq<string>, unaltered: seq<string>, removed: seq<string>)

  type Files = map<string, string>

  const TOP_FILES: set<string> := {"README.md", ".sops.yaml", ".gitignore", ".gitattributes"}

  /** What _scan_existing walks: two folders and four files at the top. */
  predicate Scanned(rel: string) {
    "kubernetes/" <= rel || "docs/" <= rel || rel in TOP_FILES
  }

  /** The owned files on disk, by the hash of their contents. */
  function Existing(files: Files, owns: string -> bool, hash: string -> string): map<string, string> {
    map rel | rel in files && Scanned(rel) && owns(rel) :: hash(files[rel])
  }

  /** What one call of the tracker adds to what it knows. */
  datatype Ledger = Ledger(before: map<string, string>, seen: set<string>, report: Report)

  function Recorded(l: Ledger, rel: string, newHash: string): Ledger {
    var report :=
      if rel !in l.before then l.report.(added := l.report.added + [rel])
      else if l.before[rel] != newHash then l.report.(modified := l.report.modified + [rel])
      else l.report.(unaltered := l.report.unaltered + [rel]);
    l.(seen := l.seen + {rel}, report := report)
  }

  function KeptOne(l: Ledger, rel: string): Ledger {
    if rel in l.before && rel !in l.seen then
      l.(seen := l.seen + {rel}, report := l.report.(unaltered := l.report.unaltered + [rel]))
    else l
  }

  function Kept(l: Ledger, rels: seq<string>): Ledger {
    if rels == [] then l else KeptOne(Kept(l, rels[..|rels| - 1]), rels[|rels| - 1])
  }

  function Orphans(l: Ledger): set<string> {
    l.before.Keys - l.seen
  }

  function Swept(l: Ledger): Ledger {
    l.(report := l.report.(removed := l.report.removed + SortedSet(Orphans(l))))
  }

  /** The working tree. */
  class Disk {
    var files: Files

    constructor (files: Files)
      ensures this.files == files
    {
      this.files := files;
    }
  }

  class Tracker {
    const root: Disk
    const owns: string -> bool
    const hash: string -> string
    const dryRun: bool
    var before: map<string, string>
    var seen: set<string>
    var report: Report

    function State(): Ledger
      reads this
    {
      Ledger(before, seen, report)
    }

    /** No owned file has gone since the scan: only the sweep deletes. */
    predicate Valid()
      reads this, root
    {
      before.Keys <= root.files.Keys
    }

    constructor (root: Disk, owns: string -> bool, hash: string -> string, dryRun: bool)
      ensures this.root == root && this.owns == owns && this.hash == hash && this.dryRun == dryRun
      ensures before == Existing(root.files, owns, hash) && seen == {} && report == Report([], [], [], [])
      ensures Valid()
    {
      this.root, this.owns, this.hash, this.dryRun := root, owns, hash, dryRun;
      before, seen, report := map[], {}, Report([], [], [], []);
      new;
      var todo := root.files.Keys;
      while todo != {}
        invariant todo <= root.files.Keys && seen == {} && report == Report([], [], [], [])
        invariant before == map rel | rel in root.files && rel !in todo && Scanned(rel) &&
          owns(rel) :: hash(root.files[rel])
        decreases |todo|
      {
        var rel :| rel in todo;
        todo := todo - {rel};
        if Scanned(rel) && owns(rel) {
          before := before[rel := hash(root.files[rel])];
        }
      }
    }

    /** Sink.write_*: to the disk unless it is a dry run, and into the ledger. */
    method Write(rel: string, content: string)
      requires Valid()
      modifies this, root
      ensures State() == Recorded(old(State()), rel, hash(content)) && Valid()
      ensures root.files == if dryRun then old(root.files) else old(root.files)[rel := content]
    {
      if !dryRun {
        root.files := root.files[rel := content];
      }
      RecordWritten(rel, content);
    }

    method RecordWritten(rel: string, content: string)
      modifies this
      ensures State() == Recorded(old(State()), rel, hash(content))
    {
      seen := seen + {rel};
      var newHash := hash(content);
      if rel !in before {
        report := report.(added := report.added + [rel]);
      } else if before[rel] != newHash {
        report := report.(modified := report.modified + [rel]);
      } else {
        report := report.(unaltered := report.unaltered + [rel]);
      }
    }

    method KeepExisting(rels: seq<string>)
      modifies this
      ensures State() == Kept(old(State()), rels) && before == old(before)
    {
      var i := 0;
      while i < |rels|
        invariant i <= |rels| && before == old(before)
        invariant State() == Kept(old(State()), rels[..i])
      {
        assert rels[..i + 1][..i] == rels[..i];
        if rels[i] in before && rels[i] !in seen {
          seen := seen + {rels[i]};
          report := report.(unaltered := report.unaltered + [rels[i]]);
        }
        i := i + 1;
      }
      assert rels[..i] == rels;
    }

    method SweepOrphans()
      modifies this, root
      ensures State() == Swept(old(State()))
      ensures root.files == if dryRun then old(root.files) else old(root.files) - Orphans(old(State()))
    {
      var orphaned := SortedSet(before.Keys - seen);
      ghost var was := report.removed;
      var i := 0;
      while i < |orphaned|
        invariant i <= |orphaned|
        invariant before == old(before) && seen == old(seen)
        invariant report == old(report).(removed := was + orphaned[..i])
        invariant root.files == if dryRun then old(root.files) else Without(old(root.files), orphaned[..i])
      {
        assert orphaned[..i + 1][..i] == orphaned[..i];
        assert was + orphaned[..i + 1] == was + orphaned[..i] + [orphaned[i]];
        report := report.(removed := report.removed + [orphaned[i]]);
        if !dryRun {
          root.files := root.files - {orphaned[i]};
        }
        i := i + 1;
      }
      assert orphaned[..i] == orphaned;
      WithoutAll(old(root.files), orphaned, before.Keys - seen);
    }

    method Handle(e: Event)
      requires Valid()
      modifies this, root
      ensures Valid() && Phase(State(), root.files) == Happen(old(Phase(State(), root.files)), e, hash, dryRun)
    {
      if e.Wrote? {
        Write(e.rel, e.content);
      } else {
        KeepExisting(e.rels);
      }
    }
  }

  /** Files deleted one by one. */
  function Without(files: Files, rels: seq<string>): Files {
    if rels == [] then files else Without(files, rels[..|rels| - 1]) - {rels[|rels| - 1]}
  }

  lemma {:induction false} WithoutOne(files: Files, rels: seq<string>, rel: string)
    ensures rel in Without(files, rels) <==> rel in files && rel !in rels
    ensures rel in Without(files, rels) ==> Without(files, rels)[rel] == files[rel]
  {
    if rels != [] {
      var more, last := rels[..|rels| - 1], rels[|rels| - 1];
      WithoutOne(files, more, rel);
      assert rels == more + [last];
    }
  }

  lemma WithoutAll(files: Files, rels: seq<string>, all: set<string>)
    requires forall rel :: rel in rels <==> rel in all
    ensures Without(files, rels) == files - all
  {
    forall rel ensures rel in Without(files, rels) <==> rel in files - all {
      WithoutOne(files, rels, rel);
    }
    forall rel | rel in Without(files, rels) ensures Without(files, rels)[rel] == (files - all)[rel] {
      WithoutOne(files, rels, rel);
    }
  }

  // ---- whole runs ------------------------------------------------------------------------------

  /** What a phase does with its tracker before the sweep. */
  datatype Event = Wrote(rel: string, content: string) | KeptFiles(rels: seq<string>)

  datatype Phase = Phase(ledger: Ledger, files: Files)

  function Happen(p: Phase, e: Event, hash: string -> string, dryRun: bool): Phase {
    match e
    case Wrote(rel, content) =>
      Phase(Recorded(p.ledger, rel, hash(content)), if dryRun then p.files else p.files[rel := content])
    case KeptFiles(rels) => p.(ledger := Kept(p.ledger, rels))
  }

  function HappenAll(p: Phase, es: seq<Event>, hash: string -> string, dryRun: bool): Phase {
    if es == [] then p else Happen(HappenAll(p, es[..|es| - 1], hash, dryRun), es[|es| - 1], hash, dryRun)
  }

  /** A whole phase: scan, events, sweep. */
  function RunPhase(files: Files, owns: string -> bool, es: seq<Event>, hash: string -> string, dryRun: bool): Phase {
    var start := Phase(Ledger(Existing(files, owns, hash), {}, Report([], [], [], [])), files);
    var end := HappenAll(start, es, hash, dryRun);
    Phase(Swept(end.ledger), if dryRun then end.files else end.files - Orphans(end.ledger))
  }

  /** The phase as the program runs it, on a tracker and a disk. */
  method RunOn(disk: Disk, owns: string -> bool, es: seq<Event>, hash: string -> string, dryRun: bool)
    returns (t: Tracker)
    modifies disk
    ensures Phase(t.State(), disk.files) == RunPhase(old(disk.files), owns, es, hash, dryRun)
  {
    t := new Tracker(disk, owns, hash, dryRun);
    ghost var start := Phase(t.State(), disk.files);
    var i := 0;
    while i < |es|
      invariant i <= |es|
      invariant t.root == disk && t.owns == owns && t.hash == hash && t.dryRun == dryRun && fresh(t)
      invariant Phase(t.State(), disk.files) == HappenAll(start, es[..i], hash, dryRun) && t.Valid()
      decreases |es| - i
    {
      assert es[..i + 1][..i] == es[..i];
      t.Handle(es[i]);
      i := i + 1;
    }
    assert es[..i] == es;
    t.SweepOrphans();
  }

  predicate Writes(es: seq<Event>, rel: string) {
    exists i :: 0 <= i < |es| && es[i].Wrote? && es[i].rel == rel
  }

  predicate Keeps(es: seq<Event>, rel: string) {
    exists i :: 0 <= i < |es| && es[i].KeptFiles? && rel in es[i].rels
  }

  lemma {:induction false} KeptSees(l: Ledger, rels: seq<string>, rel: string)
    ensures Kept(l, rels).before == l.before
    ensures rel in Kept(l, rels).seen <==> rel in l.seen || (rel in rels && rel in l.before)
  {
    if rels != [] {
      var more, last := rels[..|rels| - 1], rels[|rels| - 1];
      KeptSees(l, more, rel);
      KeptSees(l, more, last);
      assert rels == more + [last];
    }
  }

  lemma LastEvent(es: seq<Event>, rel: string)
    requires es != []
    ensures var more, last := es[..|es| - 1], es[|es| - 1];
      && (Writes(es, rel) <==> Writes(more, rel) || (last.Wrote? && last.rel == rel))
      && (Keeps(es, rel) <==> Keeps(more, rel) || (last.KeptFiles? && rel in last.rels))
  {
    var more, last := es[..|es| - 1], es[|es| - 1];
    forall i | 0 <= i < |more| ensures more[i] == es[i] {}
    if Writes(more, rel) {
      var i :| 0 <= i < |more| && more[i].Wrote? && more[i].rel == rel;
      assert es[i] == more[i];
    }
    if Keeps(more, rel) {
      var i :| 0 <= i < |more| && more[i].KeptFiles? && rel in more[i].rels;
      assert es[i] == more[i];
    }
  }

  /** Seen, in the end: everything written, and everything kept that was there before. */
  lemma {:induction false} SeenExactly(p: Phase, es: seq<Event>, hash: string -> string, dryRun: bool, rel: string)
    ensures var q := HappenAll(p, es, hash, dryRun);
      && q.ledger.before == p.ledger.before
      && (rel in q.ledger.seen <==>
          rel in p.ledger.seen || Writes(es, rel) || (Keeps(es, rel) && rel in p.ledger.before))
  {
    if es != [] {
      var more, last := es[..|es| - 1], es[|es| - 1];
      SeenExactly(p, more, hash, dryRun, rel);
      LastEvent(es, rel);
      if last.KeptFiles? {
        KeptSees(HappenAll(p, more, hash, dryRun).ledger, last.rels, rel);
      }
    }
  }

  /** What a phase removes: exactly the files it owns that were there at the start and that it
      neither wrote nor kept. */
  lemma RemovedExactly(files: Files, owns: string -> bool, es: seq<Event>, hash: string -> string, dryRun: bool,
                       rel: string)
    ensures rel in RunPhase(files, owns, es, hash, dryRun).ledger.report.removed <==>
      && rel in files && owns(rel) && !Writes(es, rel) && !Keeps(es, rel)
      && ("kubernetes/" <= rel || "docs/" <= rel || rel in {"README.md", ".sops.yaml", ".gitignore", ".gitattributes"})
  {
    var start := Phase(Ledger(Existing(files, owns, hash), {}, Report([], [], [], [])), files);
    SeenExactly(start, es, hash, dryRun, rel);
    NothingRemovedYet(start, es, hash, dryRun);
  }

  lemma {:induction false} NothingRemovedYet(p: Phase, es: seq<Event>, hash: string -> string, dryRun: bool)
    ensures HappenAll(p, es, hash, dryRun).ledger.report.removed == p.ledger.report.removed
  {
    if es != [] {
      var more, last := es[..|es| - 1], es[|es| - 1];
      NothingRemovedYet(p, more, hash, dryRun);
      if last.KeptFiles? {
        KeptRemovesNothing(HappenAll(p, more, hash, dryRun).ledger, last.rels);
      }
    }
  }

  lemma {:induction false} KeptRemovesNothing(l: Ledger, rels: seq<string>)
    ensures Kept(l, rels).report.removed == l.report.removed
  {
    if rels != [] {
      KeptRemovesNothing(l, rels[..|rels| - 1]);
    }
  }

  /** What the last write of a path put there, or what was there. */
  function LastContent(files: Files, es: seq<Event>): Files {
    if es == [] then files
    else
      var more, last := LastContent(files, es[..|es| - 1]), es[|es| - 1];
      if last.Wrote? then more[last.rel := last.content] else more
  }

  lemma {:induction false} FilesAre(p: Phase, es: seq<Event>, hash: string -> string, dryRun: bool)
    ensures HappenAll(p, es, hash, dryRun).files == if dryRun then p.files else LastContent(p.files, es)
  {
    if es != [] {
      FilesAre(p, es[..|es| - 1], hash, dryRun);
    }
  }

  lemma {:induction false} LastContentOf(files: Files, es: seq<Event>, rel: string)
    ensures !Writes(es, rel) ==> (rel in LastContent(files, es) <==> rel in files)
    ensures !Writes(es, rel) && rel in files ==>
      rel in LastContent(files, es) && LastContent(files, es)[rel] == files[rel]
    ensures Writes(es, rel) ==> rel in LastContent(files, es)
  {
    if es != [] {
      LastContentOf(files, es[..|es| - 1], rel);
      LastEvent(es, rel);
    }
  }

  /** After a phase each path holds what was last written there; one never written holds what it
      held, or is gone if it was removed; and a dry run changes no file and reports the same. */
  lemma FilesAfter(files: Files, owns: string -> bool, es: seq<Event>, hash: string -> string, rel: string)
    ensures var run := RunPhase(files, owns, es, hash, false);
      && RunPhase(files, owns, es, hash, true) == Phase(run.ledger, files)
      && (rel in run.files <==> rel in LastContent(files, es) && rel !in run.ledger.report.removed)
      && (Writes(es, rel) ==> rel in run.files && run.files[rel] == LastContent(files, es)[rel])
      && (rel in files && !Writes(es, rel) && rel !in run.ledger.report.removed ==>
           rel in run.files && run.files[rel] == files[rel])
  {
    var start := Phase(Ledger(Existing(files, owns, hash), {}, Report([], [], [], [])), files);
    FilesAre(start, es, hash, false);
    FilesAre(start, es, hash, true);
    SameLedger(start, es, hash);
    SeenExactly(start, es, hash, false, rel);
    NothingRemovedYet(start, es, hash, false);
    LastContentOf(files, es, rel);
  }

  lemma {:induction false} SameLedger(p: Phase, es: seq<Event>, hash: string -> string)
    ensures HappenAll(p, es, hash, true).ledger == HappenAll(p, es, hash, false).ledger
  {
    if es != [] {
      SameLedger(p, es[..|es| - 1], hash);
    }
  }

  /** The report tells of everything seen: as added when it wasn't there before, else as modified or
      unaltered. A file kept and then written with other content is told of as both. */
  predicate Reported(l: Ledger, rel: string) {
    && (rel in l.report.added <==> rel in l.seen && rel !in l.before)
    && (rel in l.report.modified || rel in l.report.unaltered <==> rel in l.seen && rel in l.before)
  }

  lemma {:induction false} KeptReports(l: Ledger, rels: seq<string>, rel: string)
    requires Reported(l, rel)
    ensures Reported(Kept(l, rels), rel)
  {
    if rels != [] {
      KeptReports(l, rels[..|rels| - 1], rel);
    }
  }

  lemma {:induction false} EventsReport(p: Phase, es: seq<Event>, hash: string -> string, dryRun: bool, rel: string)
    requires Reported(p.ledger, rel)
    ensures Reported(HappenAll(p, es, hash, dryRun).ledger, rel)
  {
    if es != [] {
      var more, last := es[..|es| - 1], es[|es| - 1];
      EventsReport(p, more, hash, dryRun, rel);
      if last.KeptFiles? {
        KeptReports(HappenAll(p, more, hash, dryRun).ledger, last.rels, rel);
      }
    }
  }

  lemma ReportIsComplete(files: Files, owns: string -> bool, es: seq<Event>, hash: string -> string, dryRun: bool,
                         rel: string)
    ensures var l := RunPhase(files, owns, es, hash, dryRun).ledger;
      && (rel in l.report.removed ==> rel !in l.report.added + l.report.modified + l.report.unaltered)
      && (rel in l.before <==> rel in l.report.removed + l.report.modified + l.report.unaltered)
      && (rel in l.report.added <==> Writes(es, rel) && rel !in l.before)
  {
    var start := Phase(Ledger(Existing(files, owns, hash), {}, Report([], [], [], [])), files);
    EventsReport(start, es, hash, dryRun, rel);
    SeenExactly(start, es, hash, dryRun, rel);
    NothingRemovedYet(start, es, hash, dryRun);
  }

  // ---- running twice -----------------------------------------------------------------------------

  /** Each path gets one content, however often it is written. */
  predicate OneContent(es: seq<Event>) {
    forall i, j :: 0 <= i < |es| && 0 <= j < |es| && es[i].Wrote? && es[j].Wrote? && es[i].rel == es[j].rel
      ==> es[i].content == es[j].content
  }

  lemma {:induction false} LastIsTheOne(files: Files, es: seq<Event>, i: nat)
    requires OneContent(es) && i < |es| && es[i].Wrote?
    ensures es[i].rel in LastContent(files, es) && LastContent(files, es)[es[i].rel] == es[i].content
  {
    var more, last := es[..|es| - 1], es[|es| - 1];
    if last.Wrote? && last.rel == es[i].rel {
      assert es[|es| - 1].content == es[i].content;
    } else {
      assert more[i] == es[i];
      LastIsTheOne(files, more, i);
    }
  }

  /** All writes so far found the same contents there, and nothing was new. */
  predicate Quiet(l: Ledger) {
    l.report.added == [] && l.report.modified == []
  }

  lemma {:induction false} KeptIsQuiet(l: Ledger, rels: seq<string>)
    requires Quiet(l)
    ensures Quiet(Kept(l, rels))
  {
    if rels != [] {
      KeptIsQuiet(l, rels[..|rels| - 1]);
    }
  }

  lemma {:induction false} QuietEvents(p: Phase, es: seq<Event>, hash: string -> string)
    requires Quiet(p.ledger)
    requires forall i :: 0 <= i < |es| && es[i].Wrote? ==>
      es[i].rel in p.ledger.before && p.ledger.before[es[i].rel] == hash(es[i].content)
    ensures Quiet(HappenAll(p, es, hash, false).ledger)
  {
    if es != [] {
      var more, last := es[..|es| - 1], es[|es| - 1];
      assert forall i :: 0 <= i < |more| ==> more[i] == es[i];
      QuietEvents(p, more, hash);
      SeenExactly(p, more, hash, false, "");
      if last.KeptFiles? {
        KeptIsQuiet(HappenAll(p, more, hash, false).ledger, last.rels);
      } else {
        assert es[|es| - 1] == last;
      }
    }
  }

  /** The cleanup is idempotent: a phase that only writes what it owns, repeated with the same
      events on what it left, adds, modifies and removes nothing. */
  lemma SecondRunIsQuiet(files: Files, owns: string -> bool, es: seq<Event>, hash: string -> string)
    requires OneContent(es)
    requires forall i :: 0 <= i < |es| && es[i].Wrote? ==> Scanned(es[i].rel) && owns(es[i].rel)
    ensures var again := RunPhase(RunPhase(files, owns, es, hash, false).files, owns, es, hash, false).ledger;
      Quiet(again) && again.report.removed == []
  {
    var files2 := RunPhase(files, owns, es, hash, false).files;
    var start := Phase(Ledger(Existing(files2, owns, hash), {}, Report([], [], [], [])), files2);
    forall i | 0 <= i < |es| && es[i].Wrote?
      ensures es[i].rel in start.ledger.before && start.ledger.before[es[i].rel] == hash(es[i].content)
    {
      assert Writes(es, es[i].rel);
      FilesAfter(files, owns, es, hash, es[i].rel);
      LastIsTheOne(files, es, i);
    }
    QuietEvents(start, es, hash);
    var removed := RunPhase(files2, owns, es, hash, false).ledger.report.removed;
    if removed != [] {
      NotRemovedTwice(files, owns, es, hash, removed[0]);
    }
  }

  lemma NotRemovedTwice(files: Files, owns: string -> bool, es: seq<Event>, hash: string -> string, rel: string)
    ensures rel !in RunPhase(RunPhase(files, owns, es, hash, false).files, owns, es, hash, false).ledger.report.removed
  {
    var files2 := RunPhase(files, owns, es, hash, false).files;
    RemovedExactly(files2, owns, es, hash, false, rel);
    if rel in files2 && Scanned(rel) && owns(rel) && !Writes(es, rel) && !Keeps(es, rel) {
      FilesAfter(files, owns, es, hash, rel);
      LastContentOf(files, es, rel);
      RemovedExactly(files, owns, es, hash, false, rel);
    }
  }
}
