/** Pointing Grimmory's books at their files again after they moved
    (kubernetes/prod/apps/grimmory/grimmory/app/relink/grimmory-relink.py). */
module Relink {
  import opened Sorting
  import opened Text

  /** A path by its components; a library's root, a file's folder below it, and its name. */
  type Path = seq<string>

  /** A live book's file, as the query gives it; `sub` None is SQL's NULL. */
  datatype Row = Row(fid: int, book: int, lib: int, sub: Option<Path>, name: string, hash: Option<string>, folder: bool)

  /** The share: each file's content hash (None when it can't be read), and its folders. */
  datatype Disk = Disk(files: map<Path, Option<string>>, dirs: set<Path>)

  datatype Plan = Plan(row: Row, newLib: int, newSub: Path, newName: string, newFull: Path)
  datatype Why = FolderBased | NoMatch | Shared(n: nat) | SplitBook

  function Folder(sub: Option<Path>): Path {
    match sub case Some(p) => p case None => []
  }

  function Full(libs: map<int, Path>, r: Row): Path
    requires r.lib in libs
  {
    libs[r.lib] + Folder(r.sub) + [r.name]
  }

  predicate Exists(disk: Disk, p: Path) {
    p in disk.files || p in disk.dirs
  }

  /** Every row has its library path, and ids are unique. */
  predicate RowsOk(libs: map<int, Path>, rows: seq<Row>) {
    && (forall r :: r in rows ==> r.lib in libs)
    && (forall i, j :: 0 <= i < j < |rows| ==> rows[i].fid != rows[j].fid)
  }

  /** What os.walk lists, library by library: every file below a root once, with that root. */
  predicate WalkOk(libs: map<int, Path>, disk: Disk, walk: seq<(int, Path)>) {
    && (forall w :: w in walk ==> w.0 in libs && w.1 in disk.files && libs[w.0] < w.1)
    && (forall i, j :: 0 <= i < j < |walk| ==> walk[i] != walk[j])
    && (forall lp, f :: lp in libs && f in disk.files && libs[lp] < f ==> (lp, f) in walk)
  }

  // ---- the plan, row by row -------------------------------------------------------------

  function Known(libs: map<int, Path>, rows: seq<Row>): set<Path>
    requires RowsOk(libs, rows)
  {
    set r | r in rows :: Full(libs, r)
  }

  function Missing(libs: map<int, Path>, disk: Disk, rows: seq<Row>): seq<Row>
    requires forall r :: r in rows ==> r.lib in libs
  {
    if rows == [] then [] else
      Missing(libs, disk, rows[..|rows| - 1]) +
        (if Exists(disk, Full(libs, rows[|rows| - 1])) then [] else [rows[|rows| - 1]])
  }

  /** The files no row claims that have this content. */
  function Found(disk: Disk, walk: seq<(int, Path)>, known: set<Path>, hash: Option<string>): seq<(int, Path)> {
    if walk == [] then [] else
      var w := walk[|walk| - 1];
      Found(disk, walk[..|walk| - 1], known, hash) +
        (if w.1 !in known && w.1 in disk.files && disk.files[w.1].Some? && disk.files[w.1] == hash then [w] else [])
  }

  function Count(rows: seq<Row>, hash: Option<string>): nat {
    if rows == [] then 0 else Count(rows[..|rows| - 1], hash) + (if rows[|rows| - 1].hash == hash then 1 else 0)
  }

  datatype Site = Site(libs: map<int, Path>, disk: Disk, walk: seq<(int, Path)>, rows: seq<Row>)

  predicate SiteOk(s: Site) {
    RowsOk(s.libs, s.rows) && WalkOk(s.libs, s.disk, s.walk)
  }

  function Gone(s: Site): seq<Row>
    requires SiteOk(s)
  {
    Missing(s.libs, s.disk, s.rows)
  }

  function FoundFor(s: Site, r: Row): seq<(int, Path)>
    requires SiteOk(s)
  {
    Found(s.disk, s.walk, Known(s.libs, s.rows), r.hash)
  }

  predicate Matched(s: Site, r: Row)
    requires SiteOk(s)
  {
    !r.folder && |FoundFor(s, r)| == 1 && Count(Gone(s), r.hash) == 1
  }

  /** Where a root's file is: the folder below the root, and the name. */
  function PlanFor(s: Site, r: Row): Plan
    requires SiteOk(s) && Matched(s, r)
  {
    var w := FoundFor(s, r)[0];
    FoundIs(s.disk, s.walk, Known(s.libs, s.rows), r.hash, w);
    Plan(r, w.0, w.1[|s.libs[w.0]|..|w.1| - 1], w.1[|w.1| - 1], w.1)
  }

  lemma {:induction false} FoundIs(disk: Disk, walk: seq<(int, Path)>, known: set<Path>, hash: Option<string>,
                                   w: (int, Path))
    ensures w in Found(disk, walk, known, hash) <==>
      w in walk && w.1 !in known && w.1 in disk.files && disk.files[w.1].Some? && disk.files[w.1] == hash
  {
    if walk != [] {
      FoundIs(disk, walk[..|walk| - 1], known, hash, w);
      assert walk == walk[..|walk| - 1] + [walk[|walk| - 1]];
    }
  }

  lemma {:induction false} MissingIs(libs: map<int, Path>, disk: Disk, rows: seq<Row>, r: Row)
    requires forall r :: r in rows ==> r.lib in libs
    ensures r in Missing(libs, disk, rows) <==> r in rows && !Exists(disk, Full(libs, r))
  {
    if rows != [] {
      MissingIs(libs, disk, rows[..|rows| - 1], r);
      assert rows == rows[..|rows| - 1] + [rows[|rows| - 1]];
    }
  }

  /** Two missing rows with one hash are counted twice. */
  lemma {:induction false} CountTwo(rows: seq<Row>, a: Row, b: Row)
    requires a in rows && b in rows && a != b && a.hash == b.hash
    ensures Count(rows, a.hash) >= 2
  {
    var init, last := rows[..|rows| - 1], rows[|rows| - 1];
    assert rows == init + [last];
    if last == a { CountOne(init, b); }
    else if last == b { CountOne(init, a); }
    else { CountTwo(init, a, b); }
  }

  lemma {:induction false} CountOne(rows: seq<Row>, a: Row)
    requires a in rows
    ensures Count(rows, a.hash) >= 1
  {
    assert rows == rows[..|rows| - 1] + [rows[|rows| - 1]];
    if rows[|rows| - 1] != a { CountOne(rows[..|rows| - 1], a); }
  }

  /** The book's planned files don't all land under one library path. */
  predicate Splits(s: Site, book: int)
    requires SiteOk(s)
  {
    exists a, b :: a in Gone(s) && b in Gone(s) && a.book == book && b.book == book && Matched(s, a) && Matched(s, b)
      && PlanFor(s, a).newLib != PlanFor(s, b).newLib
  }

  datatype Fate = Moves(plan: Plan) | Reported(why: Why)

  /** What becomes of a missing row. */
  function FateOf(s: Site, r: Row): Fate
    requires SiteOk(s)
  {
    if r.folder then Reported(FolderBased)
    else if Matched(s, r) then if Splits(s, r.book) then Reported(SplitBook) else Moves(PlanFor(s, r))
    else if FoundFor(s, r) == [] then Reported(NoMatch)
    else Reported(Shared(|FoundFor(s, r)|))
  }

  predicate Planned(s: Site, r: Row)
    requires SiteOk(s)
  {
    r in Gone(s) && FateOf(s, r).Moves?
  }

  /** A plan names an existing file with the row's content, which no live row claims. */
  lemma PlanIsSound(s: Site, r: Row)
    requires SiteOk(s) && Matched(s, r)
    ensures var p := PlanFor(s, r);
      && p.newLib in s.libs && p.newFull == s.libs[p.newLib] + p.newSub + [p.newName]
      && p.newFull in s.disk.files && s.disk.files[p.newFull] == r.hash && r.hash.Some?
      && forall q :: q in s.rows ==> Full(s.libs, q) != p.newFull
  {
    var w := FoundFor(s, r)[0];
    FoundIs(s.disk, s.walk, Known(s.libs, s.rows), r.hash, w);
    var root := s.libs[w.0];
    assert w.1[..|root|] == root;
    assert w.1 == root + w.1[|root|..|w.1| - 1] + [w.1[|w.1| - 1]];
    forall q | q in s.rows ensures Full(s.libs, q) != w.1 { assert Full(s.libs, q) in Known(s.libs, s.rows); }
  }

  /** No two plans get one file. */
  lemma PlansDisjoint(s: Site, a: Row, b: Row)
    requires SiteOk(s) && a in Gone(s) && b in Gone(s) && a != b && Matched(s, a) && Matched(s, b)
    ensures PlanFor(s, a).newFull != PlanFor(s, b).newFull
  {
    PlanIsSound(s, a);
    PlanIsSound(s, b);
    if a.hash == b.hash { CountTwo(Gone(s), a, b); }
  }

  /** The planned files of one book all go under one library path. */
  lemma OneLibraryPerBook(s: Site, a: Row, b: Row)
    requires SiteOk(s) && Planned(s, a) && Planned(s, b) && a.book == b.book
    ensures PlanFor(s, a).newLib == PlanFor(s, b).newLib
  {
  }

  // ---- the plan, from the share and the rows alone ---------------------------------------------

  /** A file in the library with the row's content, which no live row claims. */
  ghost predicate Candidate(s: Site, r: Row, lib: int, file: Path)
    requires SiteOk(s)
  {
    && lib in s.libs && file in s.disk.files && s.libs[lib] < file
    && r.hash.Some? && s.disk.files[file] == r.hash
    && forall q :: q in s.rows ==> Full(s.libs, q) != file
  }

  /** The files with the row's content that no live row claims, each with a library it is in. */
  ghost function Candidates(s: Site, r: Row): set<(int, Path)>
    requires SiteOk(s)
  {
    set lib, f | lib in s.libs && f in s.disk.files && Candidate(s, r, lib, f) :: (lib, f)
  }

  /** The rows whose file is gone and had the row's content. */
  ghost function Sharers(s: Site, r: Row): set<Row>
    requires SiteOk(s)
  {
    set q | q in s.rows && !Exists(s.disk, Full(s.libs, q)) && q.hash == r.hash
  }

  /** The row's file is gone, one unclaimed file has its content, and no other missing row does. */
  ghost predicate HasMovedTo(s: Site, r: Row, lib: int, file: Path)
    requires SiteOk(s)
  {
    && r in s.rows && !r.folder && !Exists(s.disk, Full(s.libs, r))
    && Candidates(s, r) == {(lib, file)} && Sharers(s, r) == {r}
  }

  lemma {:induction false} FoundOnce(disk: Disk, walk: seq<(int, Path)>, known: set<Path>, hash: Option<string>)
    requires Distinct(walk)
    ensures Distinct(Found(disk, walk, known, hash))
  {
    if walk != [] {
      var init, last := walk[..|walk| - 1], walk[|walk| - 1];
      assert forall i :: 0 <= i < |init| ==> init[i] == walk[i];
      FoundOnce(disk, init, known, hash);
      FoundIs(disk, init, known, hash, last);
    }
  }

  lemma {:induction false} SizeOfDistinct<T>(xs: seq<T>)
    requires Distinct(xs)
    ensures |xs| == |set x | x in xs|
  {
    if xs != [] {
      var init, last := xs[..|xs| - 1], xs[|xs| - 1];
      assert forall i :: 0 <= i < |init| ==> init[i] == xs[i];
      SizeOfDistinct(init);
      assert xs == init + [last];
      assert (set x | x in xs) == (set x | x in init) + {last};
    }
  }

  ghost function HavingHash(rows: seq<Row>, hash: Option<string>): set<Row> {
    set q | q in rows && q.hash == hash
  }

  lemma OneMoreHaving(rows: seq<Row>, last: Row, hash: Option<string>)
    ensures HavingHash(rows + [last], hash) == HavingHash(rows, hash) + (if last.hash == hash then {last} else {})
  {
    assert forall q :: q in rows + [last] <==> q in rows || q == last;
  }

  lemma {:induction false} CountIs(rows: seq<Row>, hash: Option<string>)
    requires Distinct(rows)
    ensures Count(rows, hash) == |HavingHash(rows, hash)|
  {
    if rows != [] {
      var init, last := rows[..|rows| - 1], rows[|rows| - 1];
      assert forall i :: 0 <= i < |init| ==> init[i] == rows[i];
      CountIs(init, hash);
      assert rows == init + [last];
      OneMoreHaving(init, last, hash);
      assert last !in HavingHash(init, hash);
    }
  }

  lemma CandidateIs(s: Site, r: Row, w: (int, Path))
    requires SiteOk(s)
    ensures w in Candidates(s, r) <==>
      w in s.walk && w.1 !in Known(s.libs, s.rows) && w.1 in s.disk.files && s.disk.files[w.1].Some? &&
        s.disk.files[w.1] == r.hash
  {
    var known := Known(s.libs, s.rows);
    assert w == (w.0, w.1);
    assert w.1 in known <==> !(forall q :: q in s.rows ==> Full(s.libs, q) != w.1);
    assert w in Candidates(s, r) <==> Candidate(s, r, w.0, w.1);
  }

  lemma FoundAre(s: Site, r: Row)
    requires SiteOk(s)
    ensures |FoundFor(s, r)| == |Candidates(s, r)|
    ensures forall w :: w in FoundFor(s, r) <==> w in Candidates(s, r)
  {
    var known, found := Known(s.libs, s.rows), FoundFor(s, r);
    FoundOnce(s.disk, s.walk, known, r.hash);
    SizeOfDistinct(found);
    forall w: (int, Path) ensures w in found <==> w in Candidates(s, r) {
      FoundIs(s.disk, s.walk, known, r.hash, w);
      CandidateIs(s, r, w);
    }
    assert (set w | w in found) == Candidates(s, r);
  }

  lemma SharersAre(s: Site, r: Row)
    requires SiteOk(s)
    ensures Count(Gone(s), r.hash) == |Sharers(s, r)|
  {
    assert Distinct(s.rows);
    MissingOnce(s.libs, s.disk, s.rows);
    CountIs(Gone(s), r.hash);
    forall q ensures q in Gone(s) <==> q in s.rows && !Exists(s.disk, Full(s.libs, q)) {
      MissingIs(s.libs, s.disk, s.rows, q);
    }
    assert HavingHash(Gone(s), r.hash) == Sharers(s, r);
  }

  lemma OneIs<T>(xs: set<T>, x: T)
    requires x in xs && |xs| == 1
    ensures xs == {x}
  {
    assert xs == {x} + (xs - {x});
  }

  lemma MatchedExactly(s: Site, r: Row, lib: int, file: Path)
    requires SiteOk(s)
    ensures (r in Gone(s) && Matched(s, r) && PlanFor(s, r).newLib == lib && PlanFor(s, r).newFull == file) <==>
      HasMovedTo(s, r, lib, file)
  {
    FoundAre(s, r);
    SharersAre(s, r);
    MissingIs(s.libs, s.disk, s.rows, r);
    if r in Gone(s) && Matched(s, r) {
      OneIs(Candidates(s, r), FoundFor(s, r)[0]);
      OneIs(Sharers(s, r), r);
    }
    if HasMovedTo(s, r, lib, file) { assert FoundFor(s, r)[0] in Candidates(s, r); }
  }

  /** A row moves exactly when one file can only be its own, and each such file of its book is in
      that file's library. */
  lemma PlannedExactly(s: Site, r: Row, lib: int, file: Path)
    requires SiteOk(s)
    ensures (Planned(s, r) && PlanFor(s, r).newLib == lib && PlanFor(s, r).newFull == file) <==>
      HasMovedTo(s, r, lib, file) && forall q, l, f :: HasMovedTo(s, q, l, f) && q.book == r.book ==> l == lib
  {
    forall q, l, f ensures HasMovedTo(s, q, l, f) <==>
      q in Gone(s) && Matched(s, q) && PlanFor(s, q).newLib == l && PlanFor(s, q).newFull == f
    {
      MatchedExactly(s, q, l, f);
    }
    if HasMovedTo(s, r, lib, file) && Splits(s, r.book) {
      var a, b :| a in Gone(s) && b in Gone(s) && a.book == r.book && b.book == r.book && Matched(s, a) &&
        Matched(s, b) && PlanFor(s, a).newLib != PlanFor(s, b).newLib;
      assert HasMovedTo(s, a, PlanFor(s, a).newLib, PlanFor(s, a).newFull);
      assert HasMovedTo(s, b, PlanFor(s, b).newLib, PlanFor(s, b).newFull);
    }
  }

  /** Why a row stays: a folder-based book, no file, its files in several libraries, or content
      that other files or other missing rows have too. */
  lemma ReportedExactly(s: Site, r: Row)
    requires SiteOk(s) && r in Gone(s) && !Planned(s, r)
    ensures FateOf(s, r) == Reported(
      if r.folder then FolderBased
      else if Candidates(s, r) == {} then NoMatch
      else if |Candidates(s, r)| == 1 && Sharers(s, r) == {r} then SplitBook
      else Shared(|Candidates(s, r)|))
  {
    FoundAre(s, r);
    SharersAre(s, r);
    MissingIs(s.libs, s.disk, s.rows, r);
    if |Sharers(s, r)| == 1 { OneIs(Sharers(s, r), r); }
  }

  // ---- the database -----------------------------------------------------------------------

  datatype FileRow = FileRow(book: int, sub: Option<Path>, name: string, hash: Option<string>, folder: bool)
  datatype Book = Book(lib: int, live: bool)
  datatype Db = Db(files: map<int, FileRow>, books: map<int, Book>)

  predicate Live(db: Db, fid: int) {
    fid in db.files && db.files[fid].book in db.books && db.books[db.files[fid].book].live
  }

  /** The query's rows: every live book's files. */
  ghost predicate RowsFrom(db: Db, rows: seq<Row>) {
    forall r :: r in rows <==>
      Live(db, r.fid) && db.files[r.fid] == FileRow(r.book, r.sub, r.name, r.hash, r.folder) &&
        db.books[r.book].lib == r.lib
  }

  /** Where Grimmory looks for a file. */
  function Resolves(libs: map<int, Path>, db: Db, fid: int): Path
    requires Live(db, fid) && db.books[db.files[fid].book].lib in libs
  {
    libs[db.books[db.files[fid].book].lib] + Folder(db.files[fid].sub) + [db.files[fid].name]
  }

  /** The guarded update's WHERE clause, and the row count it reports: MySQL counts rows
      matched or rows changed, as the connection asks (`countsChanged`). */
  predicate UpdatesOne(db: Db, p: Plan, countsChanged: bool) {
    && p.row.fid in db.files
    && (var f := db.files[p.row.fid];
        f.sub == p.row.sub && f.name == p.row.name && f.hash.Some? && f.hash == p.row.hash
        && (countsChanged ==> f.sub != Some(p.newSub) || f.name != p.newName))
  }

  function Updated(db: Db, p: Plan): Db
    requires p.row.fid in db.files
  {
    Db(db.files[p.row.fid := db.files[p.row.fid].(sub := Some(p.newSub), name := p.newName)],
       if p.row.book in db.books then db.books[p.row.book := db.books[p.row.book].(lib := p.newLib)] else db.books)
  }

  /** The updates in one transaction: None when one of them doesn't update its row. */
  function Commit(db: Db, plans: seq<Plan>, countsChanged: bool): Option<Db>
    decreases |plans|
  {
    if plans == [] then Some(db)
    else if UpdatesOne(db, plans[0], countsChanged) then Commit(Updated(db, plans[0]), plans[1..], countsChanged)
    else None
  }

  /** The file's row still says what was read: its folder, its name and its hash, which isn't NULL. */
  predicate AsRead(db: Db, r: Row) {
    && r.fid in db.files && r.hash.Some?
    && db.files[r.fid].sub == r.sub && db.files[r.fid].name == r.name && db.files[r.fid].hash == r.hash
  }

  /** An update with nothing to change in its row, where the rows changed are counted. */
  predicate StaysInPlace(p: Plan, countsChanged: bool) {
    countsChanged && p.row.sub == Some(p.newSub) && p.row.name == p.newName
  }

  predicate DistinctFiles(plans: seq<Plan>) {
    forall i, j :: 0 <= i < j < |plans| ==> plans[i].row.fid != plans[j].row.fid
  }

  predicate OneLibrary(plans: seq<Plan>) {
    forall p, q :: p in plans && q in plans && p.row.book == q.row.book ==> p.newLib == q.newLib
  }

  ghost predicate Relinked(db: Db, plans: seq<Plan>, after: Db) {
    && after.files.Keys == db.files.Keys && after.books.Keys == db.books.Keys
    && (forall p :: p in plans ==>
         p.row.fid in db.files
         && after.files[p.row.fid] == db.files[p.row.fid].(sub := Some(p.newSub), name := p.newName))
    && (forall f :: f in db.files && (forall p :: p in plans ==> p.row.fid != f) ==> after.files[f] == db.files[f])
    && (forall p :: p in plans && p.row.book in db.books ==>
         after.books[p.row.book] == db.books[p.row.book].(lib := p.newLib))
    && (forall b :: b in db.books && (forall p :: p in plans ==> p.row.book != b) ==> after.books[b] == db.books[b])
  }

  lemma TailPlans(plans: seq<Plan>)
    requires plans != [] && DistinctFiles(plans) && OneLibrary(plans)
    ensures DistinctFiles(plans[1..]) && OneLibrary(plans[1..])
    ensures forall p :: p in plans[1..] ==> p in plans && p.row.fid != plans[0].row.fid
    ensures forall p :: p in plans <==> p == plans[0] || p in plans[1..]
  {
    var tl := plans[1..];
    assert forall i :: 0 <= i < |tl| ==> tl[i] == plans[i + 1];
  }

  /** All or nothing: the transaction commits exactly when every update finds its row as it was
      read (and, where changes are counted, has something to change). */
  lemma {:induction false} CommitsExactlyWhen(db: Db, plans: seq<Plan>, countsChanged: bool)
    requires DistinctFiles(plans) && OneLibrary(plans)
    ensures Commit(db, plans, countsChanged).Some? <==>
      forall p :: p in plans ==> AsRead(db, p.row) && !StaysInPlace(p, countsChanged)
    decreases |plans|
  {
    if plans != [] {
      TailPlans(plans);
      if UpdatesOne(db, plans[0], countsChanged) {
        var next := Updated(db, plans[0]);
        CommitsExactlyWhen(next, plans[1..], countsChanged);
        assert forall p :: p in plans[1..] ==> (AsRead(next, p.row) <==> AsRead(db, p.row));
      } else {
        assert plans[0] in plans;
      }
    }
  }

  /** What a commit leaves: every planned row at its new place, every planned book under its
      library path, every other row and book as it was. */
  lemma {:induction false} CommitRelinks(db: Db, plans: seq<Plan>, countsChanged: bool)
    requires DistinctFiles(plans) && OneLibrary(plans) && Commit(db, plans, countsChanged).Some?
    ensures Relinked(db, plans, Commit(db, plans, countsChanged).value)
    decreases |plans|
  {
    if plans != [] {
      TailPlans(plans);
      var next, after := Updated(db, plans[0]), Commit(db, plans, countsChanged).value;
      CommitRelinks(next, plans[1..], countsChanged);
      RelinkedCons(db, plans, after);
    }
  }

  lemma RelinkedCons(db: Db, plans: seq<Plan>, after: Db)
    requires plans != [] && DistinctFiles(plans) && OneLibrary(plans) && plans[0].row.fid in db.files
    requires Relinked(Updated(db, plans[0]), plans[1..], after)
    ensures Relinked(db, plans, after)
  {
    TailPlans(plans);
    var next, first := Updated(db, plans[0]), plans[0];
    forall p | p in plans
      ensures p.row.fid in db.files &&
        after.files[p.row.fid] == db.files[p.row.fid].(sub := Some(p.newSub), name := p.newName)
      ensures p.row.book in db.books ==> after.books[p.row.book] == db.books[p.row.book].(lib := p.newLib)
    {
      if p == first && first.row.book in db.books && exists q :: q in plans[1..] && q.row.book == first.row.book {
        var q :| q in plans[1..] && q.row.book == first.row.book;
        assert q.newLib == first.newLib;
      }
    }
  }

  lemma PlansAreTransaction(s: Site, plans: seq<Plan>)
    requires SiteOk(s) && forall p :: p in plans ==> Planned(s, p.row) && p == PlanFor(s, p.row)
    ensures OneLibrary(plans)
  {
    forall p, q | p in plans && q in plans && p.row.book == q.row.book ensures p.newLib == q.newLib {
      OneLibraryPerBook(s, p.row, q.row);
    }
  }

  /** A row ends at an existing file whose content has the row's recorded hash. */
  predicate Restored(s: Site, after: Db, fid: int) {
    && Live(after, fid) && after.books[after.files[fid].book].lib in s.libs
    && var full := Resolves(s.libs, after, fid);
       full in s.disk.files && s.disk.files[full].Some? && s.disk.files[full] == after.files[fid].hash
  }

  /** The library a book is in once the plans are made. */
  predicate GoesTo(db: Db, plans: seq<Plan>, book: int, lib: int)
    requires book in db.books
  {
    if exists p :: p in plans && p.row.book == book then exists p :: p in plans && p.row.book == book && p.newLib == lib
    else db.books[book].lib == lib
  }

  lemma BookGoes(db: Db, plans: seq<Plan>, after: Db, book: int)
    requires Relinked(db, plans, after) && OneLibrary(plans) && book in db.books
    ensures book in after.books && after.books[book].live == db.books[book].live
    ensures forall lib :: GoesTo(db, plans, book, lib) <==> after.books[book].lib == lib
  {
    if p :| p in plans && p.row.book == book {
      assert after.books[p.row.book] == db.books[p.row.book].(lib := p.newLib);
      forall q | q in plans && q.row.book == book ensures q.newLib == p.newLib {}
    }
  }

  /** A file of this content is where the plan's folder and name are in a library. */
  predicate FileIn(s: Site, p: Plan, lib: int) {
    && lib in s.libs
    && var full := s.libs[lib] + p.newSub + [p.newName];
       full in s.disk.files && s.disk.files[full].Some? && s.disk.files[full] == p.row.hash
  }

  /** Whatever the database became since it was read: after a commit a planned row leads to an existing
      file of its recorded hash exactly when its file still belongs to a live book, and that book goes to
      a library with such a file at the planned place. */
  lemma RestoredExactlyWhen(s: Site, db: Db, plans: seq<Plan>, after: Db, p: Plan)
    requires Relinked(db, plans, after) && OneLibrary(plans) && p in plans && AsRead(db, p.row)
    ensures Restored(s, after, p.row.fid) <==>
      Live(db, p.row.fid) && exists lib :: FileIn(s, p, lib) && GoesTo(db, plans, db.files[p.row.fid].book, lib)
  {
    var book := db.files[p.row.fid].book;
    assert after.files[p.row.fid] == db.files[p.row.fid].(sub := Some(p.newSub), name := p.newName);
    if book in db.books {
      BookGoes(db, plans, after, book);
      assert GoesTo(db, plans, book, after.books[book].lib);
    }
  }

  /** In the book it was read with, that means: while the book is live. */
  lemma RestoredInItsBook(s: Site, db: Db, plans: seq<Plan>, after: Db, p: Plan)
    requires SiteOk(s) && Planned(s, p.row) && p == PlanFor(s, p.row)
    requires Relinked(db, plans, after) && OneLibrary(plans) && p in plans && AsRead(db, p.row)
    requires db.files[p.row.fid].book == p.row.book
    ensures Restored(s, after, p.row.fid) <==> Live(db, p.row.fid)
    ensures Restored(s, after, p.row.fid) ==> Resolves(s.libs, after, p.row.fid) == p.newFull
  {
    PlanIsSound(s, p.row);
    RestoredExactlyWhen(s, db, plans, after, p);
    if p.row.book in db.books { BookGoes(db, plans, after, p.row.book); }
    if Live(db, p.row.fid) {
      assert FileIn(s, p, p.newLib) && GoesTo(db, plans, p.row.book, p.newLib);
    }
  }

  // ---- the read-back -------------------------------------------------------------------------------

  /** The read-back finds the new place in the file's row and its book's, and the file there. It doesn't
      ask whether the book is deleted. */
  predicate Confirmed(s: Site, db: Db, p: Plan) {
    && p.row.fid in db.files && db.files[p.row.fid].book in db.books
    && db.files[p.row.fid].sub == Some(p.newSub) && db.files[p.row.fid].name == p.newName
    && db.books[db.files[p.row.fid].book].lib == p.newLib && Exists(s.disk, p.newFull)
  }

  /** What it tells after a commit: that the file has a book, in the planned library. So a confirmed
      row leads to its file if its book is live, and only then. */
  lemma ConfirmedExactlyWhen(s: Site, db: Db, plans: seq<Plan>, after: Db, p: Plan)
    requires SiteOk(s) && Planned(s, p.row) && p == PlanFor(s, p.row)
    requires Relinked(db, plans, after) && OneLibrary(plans) && p in plans && AsRead(db, p.row)
    ensures Confirmed(s, after, p) <==>
      db.files[p.row.fid].book in db.books && GoesTo(db, plans, db.files[p.row.fid].book, p.newLib)
    ensures Confirmed(s, after, p) ==> (Restored(s, after, p.row.fid) <==> Live(db, p.row.fid))
  {
    var book := db.files[p.row.fid].book;
    PlanIsSound(s, p.row);
    assert after.files[p.row.fid] == db.files[p.row.fid].(sub := Some(p.newSub), name := p.newName);
    if book in db.books {
      BookGoes(db, plans, after, book);
    }
    RestoredExactlyWhen(s, db, plans, after, p);
    if Confirmed(s, after, p) {
      assert FileIn(s, p, p.newLib) && GoesTo(db, plans, book, p.newLib);
    }
  }

  predicate Unplanned(db: Db, plans: seq<Plan>, fid: int) {
    Live(db, fid) && forall p :: p in plans ==> p.row.fid != fid
  }

  /** Every live file's library has its path, and so does every planned one. */
  predicate LibsKnown(libs: map<int, Path>, db: Db, plans: seq<Plan>) {
    && (forall f :: f in db.files && Live(db, f) ==> db.books[db.files[f].book].lib in libs)
    && (forall p :: p in plans ==> p.newLib in libs)
  }

  /** Every other live file is looked for where it was. */
  predicate OthersStay(libs: map<int, Path>, db: Db, plans: seq<Plan>, after: Db)
    requires LibsKnown(libs, db, plans)
  {
    forall f :: f in db.files && Unplanned(db, plans, f) ==>
      Live(after, f) && after.books[after.files[f].book].lib in libs &&
        Resolves(libs, after, f) == Resolves(libs, db, f)
  }

  /** No planned book goes under another root while a live file of it is left out of the plans. */
  predicate NoneLeftBehind(libs: map<int, Path>, db: Db, plans: seq<Plan>)
    requires LibsKnown(libs, db, plans)
  {
    forall f, p :: f in db.files && Unplanned(db, plans, f) && p in plans && p.row.book == db.files[f].book ==>
      libs[p.newLib] == libs[db.books[p.row.book].lib]
  }

  /** The other files are found where they were exactly when no book that goes under another
      root still has a file there the plans leave out. */
  lemma OthersResolveExactlyWhen(libs: map<int, Path>, db: Db, plans: seq<Plan>, after: Db)
    requires Relinked(db, plans, after) && LibsKnown(libs, db, plans)
    ensures OthersStay(libs, db, plans, after) <==> NoneLeftBehind(libs, db, plans)
  {
    forall f | f in db.files && Unplanned(db, plans, f)
      ensures Live(after, f) && after.books[after.files[f].book].lib in libs
      ensures Resolves(libs, after, f) == Resolves(libs, db, f) <==>
        libs[after.books[db.files[f].book].lib] == libs[db.books[db.files[f].book].lib]
      ensures forall p :: p in plans && p.row.book == db.files[f].book ==> after.books[p.row.book].lib == p.newLib
    {
      if p :| p in plans && p.row.book == db.files[f].book {
        assert after.books[p.row.book] == db.books[p.row.book].(lib := p.newLib);
      } else {
        assert after.books[db.files[f].book] == db.books[db.files[f].book];
      }
      var rest := Folder(db.files[f].sub) + [db.files[f].name];
      SameSuffix(libs[after.books[db.files[f].book].lib], libs[db.books[db.files[f].book].lib], rest);
      AssocPath(libs[after.books[db.files[f].book].lib], Folder(db.files[f].sub), [db.files[f].name]);
      AssocPath(libs[db.books[db.files[f].book].lib], Folder(db.files[f].sub), [db.files[f].name]);
    }
  }

  lemma AssocPath(a: Path, b: Path, c: Path)
    ensures a + b + c == a + (b + c)
  {
  }

  lemma SameSuffix(a: Path, b: Path, c: Path)
    ensures a + c == b + c <==> a == b
  {
    if a + c == b + c {
      assert |a| == |b|;
      assert a == (a + c)[..|a|] == (b + c)[..|b|] == b;
    }
  }

  // ---- what the check on planned files alone lets through -----------------------------------

  const SAMPLE_LIBS: map<int, Path> := map[1 := ["a"], 2 := ["b"]]
  const SAMPLE_DB := Db(
    map[10 := FileRow(7, None, "x", Some("h"), false), 11 := FileRow(7, None, "y", Some("k"), false)],
    map[7 := Book(1, true)])
  const SAMPLE_PLAN := Plan(Row(10, 7, 1, None, "x", Some("h"), false), 2, [], "x", ["b", "x"])

  /** A book with two files, of which one moved to another library: the one left in place is
      looked for in the wrong library from then on. */
  lemma SiblingLost()
    ensures Commit(SAMPLE_DB, [SAMPLE_PLAN], false).Some?
    ensures var after := Commit(SAMPLE_DB, [SAMPLE_PLAN], false).value;
      Unplanned(SAMPLE_DB, [SAMPLE_PLAN], 11) && Live(after, 11) && after.books[after.files[11].book].lib in SAMPLE_LIBS
      && Resolves(SAMPLE_LIBS, SAMPLE_DB, 11) == ["a", "y"] && Resolves(SAMPLE_LIBS, after, 11) == ["b", "y"]
  {
    assert [SAMPLE_PLAN][1..] == [];
    var after := Updated(SAMPLE_DB, SAMPLE_PLAN);
    assert Commit(SAMPLE_DB, [SAMPLE_PLAN], false) == Some(after);
    assert after.books[7] == Book(2, true) && after.files[11] == SAMPLE_DB.files[11];
  }

  /** A file that moved to another library under the same folder and name has nothing to change
      in its own row: where rows changed are counted, its move is never made. */
  lemma SamePlaceInAnotherLibrary(db: Db, plans: seq<Plan>, p: Plan)
    requires DistinctFiles(plans) && OneLibrary(plans) && p in plans
    requires p.row.sub == Some(p.newSub) && p.row.name == p.newName
    ensures Commit(db, plans, true).None?
  {
    CommitsExactlyWhen(db, plans, true);
  }

  const MOVED_SITE := Site(map[1 := ["a"], 2 := ["b"]], Disk(map[["b", "x"] := Some("h")], {}), [(2, ["b", "x"])],
                           [Row(10, 7, 1, None, "x", Some("h"), false)])
  const READ_DB := Db(map[10 := FileRow(7, None, "x", Some("h"), false)], map[7 := Book(1, true)])
  const DELETED_DB := READ_DB.(books := map[7 := Book(1, false)])

  lemma MovedSiteIsOk()
    ensures SiteOk(MOVED_SITE) && RowsFrom(READ_DB, MOVED_SITE.rows)
  {
    var s := MOVED_SITE;
    assert ["b"] < ["b", "x"] && ["a"][0] != ["b", "x"][0];
    forall lp, f | lp in s.libs && f in s.disk.files && s.libs[lp] < f ensures (lp, f) in s.walk {
      assert s.libs[lp][0] == f[0];
      assert (lp, f) == s.walk[0];
    }
    forall r: Row | Live(READ_DB, r.fid) && READ_DB.files[r.fid] == FileRow(r.book, r.sub, r.name, r.hash, r.folder)
      && READ_DB.books[r.book].lib == r.lib ensures r == s.rows[0] {}
  }

  lemma MovedSiteMisses()
    requires SiteOk(MOVED_SITE)
    ensures Known(MOVED_SITE.libs, MOVED_SITE.rows) == {["a", "x"]} && Gone(MOVED_SITE) == [SAMPLE_PLAN.row]
  {
    var s, r := MOVED_SITE, SAMPLE_PLAN.row;
    assert Full(s.libs, r) == ["a", "x"] && ["a", "x"][0] != ["b", "x"][0];
    assert s.rows[..0] == [];
  }

  lemma MovedSiteFinds()
    requires SiteOk(MOVED_SITE)
    ensures FoundFor(MOVED_SITE, SAMPLE_PLAN.row) == [(2, ["b", "x"])]
    ensures Count([SAMPLE_PLAN.row], Some("h")) == 1
  {
    var s, known := MOVED_SITE, {["a", "x"]};
    MovedSiteMisses();
    assert ["a", "x"][0] != ["b", "x"][0];
    assert s.walk[..0] == [] && [SAMPLE_PLAN.row][..0] == [];
    assert Found(s.disk, [], known, Some("h")) == [];
    assert Count([], Some("h")) == 0;
  }

  lemma MovedSitePlans()
    ensures SiteOk(MOVED_SITE) && RowsFrom(READ_DB, MOVED_SITE.rows)
    ensures Planned(MOVED_SITE, SAMPLE_PLAN.row) && PlanFor(MOVED_SITE, SAMPLE_PLAN.row) == SAMPLE_PLAN
  {
    MovedSiteIsOk();
    MovedSiteMisses();
    MovedSiteFinds();
    assert ["b", "x"][1..1] == [];
  }

  const RENAMED_DB := READ_DB.(files := map[10 := FileRow(7, None, "z", Some("h"), false)])

  /** A row renamed between the read and the update, its content the same: the run must not write over it,
      and doesn't. */
  lemma RenamedMeanwhile(countsChanged: bool)
    ensures SiteOk(MOVED_SITE) && RowsFrom(READ_DB, MOVED_SITE.rows)
    ensures Planned(MOVED_SITE, SAMPLE_PLAN.row) && PlanFor(MOVED_SITE, SAMPLE_PLAN.row) == SAMPLE_PLAN
    ensures RENAMED_DB.files[10].hash == SAMPLE_PLAN.row.hash && Commit(RENAMED_DB, [SAMPLE_PLAN], countsChanged).None?
  {
    MovedSitePlans();
    assert "z" != "x" by { assert "z"[0] != "x"[0]; }
  }

  /** A book deleted between the read and the update: the guard looks only at the file's row, so the
      run commits, and reads back what it wrote, though Grimmory has no such file any more. */
  lemma DeletedMeanwhile()
    ensures SiteOk(MOVED_SITE) && RowsFrom(READ_DB, MOVED_SITE.rows)
    ensures Planned(MOVED_SITE, SAMPLE_PLAN.row) && PlanFor(MOVED_SITE, SAMPLE_PLAN.row) == SAMPLE_PLAN
    ensures Commit(DELETED_DB, [SAMPLE_PLAN], false).Some?
    ensures var after := Commit(DELETED_DB, [SAMPLE_PLAN], false).value;
      !Live(after, 10) && Confirmed(MOVED_SITE, after, SAMPLE_PLAN)
  {
    MovedSitePlans();
    DeletedStillCommits();
  }

  lemma DeletedStillCommits()
    ensures Commit(DELETED_DB, [SAMPLE_PLAN], false).Some?
    ensures var after := Commit(DELETED_DB, [SAMPLE_PLAN], false).value;
      !Live(after, 10) && Confirmed(MOVED_SITE, after, SAMPLE_PLAN)
  {
    assert [SAMPLE_PLAN][1..] == [];
    var after := Updated(DELETED_DB, SAMPLE_PLAN);
    assert Commit(DELETED_DB, [SAMPLE_PLAN], false) == Some(after);
    assert after.books[7] == Book(2, false) && after.files[10] == FileRow(7, Some([]), "x", Some("h"), false);
  }

  // ---- as the program does it -----------------------------------------------------------------

  function RowsOf(plans: seq<Plan>): seq<Row> {
    seq(|plans|, i requires 0 <= i < |plans| => plans[i].row)
  }

  function Firsts(reports: seq<(Row, Why)>): seq<Row> {
    seq(|reports|, i requires 0 <= i < |reports| => reports[i].0)
  }

  method FindMissing(libs: map<int, Path>, disk: Disk, rows: seq<Row>) returns (known: set<Path>, missing: seq<Row>)
    requires RowsOk(libs, rows)
    ensures known == Known(libs, rows) && missing == Missing(libs, disk, rows)
  {
    known, missing := {}, [];
    for i := 0 to |rows|
      invariant known == set r | r in rows[..i] :: Full(libs, r)
      invariant missing == Missing(libs, disk, rows[..i])
    {
      assert rows[..i + 1] == rows[..i] + [rows[i]];
      assert rows[..i + 1][..i] == rows[..i];
      var full := Full(libs, rows[i]);
      known := known + {full};
      if !Exists(disk, full) { missing := missing + [rows[i]]; }
    }
    assert rows[..|rows|] == rows;
  }

  /** The unclaimed files by content, as the walk meets them. */
  method Unclaimed(disk: Disk, walk: seq<(int, Path)>, known: set<Path>)
    returns (unclaimed: map<string, seq<(int, Path)>>)
    requires forall w :: w in walk ==> w.1 in disk.files
    ensures forall h :: Found(disk, walk, known, Some(h)) == if h in unclaimed then unclaimed[h] else []
  {
    unclaimed := map[];
    for i := 0 to |walk|
      invariant forall h :: Found(disk, walk[..i], known, Some(h)) == if h in unclaimed then unclaimed[h] else []
    {
      assert walk[..i + 1][..i] == walk[..i];
      var w := walk[i];
      if w.1 !in known && disk.files[w.1].Some? {
        var h := disk.files[w.1].value;
        unclaimed := unclaimed[h := (if h in unclaimed then unclaimed[h] else []) + [w]];
      }
    }
    assert walk[..|walk|] == walk;
  }

  /** The transaction: updates one by one, rolled back when one doesn't update its row. */
  class Database {
    var db: Db

    method Apply(plans: seq<Plan>, countsChanged: bool) returns (committed: bool)
      modifies this
      ensures committed <==> Commit(old(db), plans, countsChanged).Some?
      ensures db == if committed then Commit(old(db), plans, countsChanged).value else old(db)
      ensures DistinctFiles(plans) && OneLibrary(plans) ==>
        && (committed <==> forall p :: p in plans ==> AsRead(old(db), p.row) && !StaysInPlace(p, countsChanged))
        && (committed ==> Relinked(old(db), plans, db))
    {
      if DistinctFiles(plans) && OneLibrary(plans) {
        CommitsExactlyWhen(db, plans, countsChanged);
        if Commit(db, plans, countsChanged).Some? { CommitRelinks(db, plans, countsChanged); }
      }
      var saved := db;
      assert plans[0..] == plans;
      for i := 0 to |plans|
        invariant Commit(old(db), plans, countsChanged) == Commit(db, plans[i..], countsChanged)
      {
        assert plans[i..][1..] == plans[i + 1..];
        if !UpdatesOne(db, plans[i], countsChanged) {
          db := saved;
          return false;
        }
        db := Updated(db, plans[i]);
      }
      return true;
    }
  }

  function ReportOf(s: Site, r: Row): Why
    requires SiteOk(s)
  {
    if r.folder then FolderBased else if FoundFor(s, r) == [] then NoMatch else Shared(|FoundFor(s, r)|)
  }

  function MatchedPlans(s: Site, rows: seq<Row>): seq<Plan>
    requires SiteOk(s)
  {
    if rows == [] then [] else
      var r := rows[|rows| - 1];
      MatchedPlans(s, rows[..|rows| - 1]) + (if Matched(s, r) then [PlanFor(s, r)] else [])
  }

  function FirstReports(s: Site, rows: seq<Row>): seq<(Row, Why)>
    requires SiteOk(s)
  {
    if rows == [] then [] else
      var r := rows[|rows| - 1];
      FirstReports(s, rows[..|rows| - 1]) + (if Matched(s, r) then [] else [(r, ReportOf(s, r))])
  }

  lemma {:induction false} MatchedPlansAre(s: Site, rows: seq<Row>, p: Plan)
    requires SiteOk(s)
    ensures p in MatchedPlans(s, rows) <==> p.row in rows && Matched(s, p.row) && p == PlanFor(s, p.row)
  {
    if rows != [] {
      MatchedPlansAre(s, rows[..|rows| - 1], p);
      assert rows == rows[..|rows| - 1] + [rows[|rows| - 1]];
    }
  }

  lemma {:induction false} FirstReportsAre(s: Site, rows: seq<Row>, r: Row, w: Why)
    requires SiteOk(s)
    ensures (r, w) in FirstReports(s, rows) <==> r in rows && !Matched(s, r) && w == ReportOf(s, r)
  {
    if rows != [] {
      FirstReportsAre(s, rows[..|rows| - 1], r, w);
      assert rows == rows[..|rows| - 1] + [rows[|rows| - 1]];
    }
  }

  lemma RowsOfMore(plans: seq<Plan>, p: Plan)
    ensures RowsOf(plans + [p]) == RowsOf(plans) + [p.row] && RowsOf(plans + []) == RowsOf(plans)
  {
    assert plans + [] == plans;
  }

  lemma FirstsMore(reports: seq<(Row, Why)>, r: Row, w: Why)
    ensures Firsts(reports + [(r, w)]) == Firsts(reports) + [r] && Firsts(reports + []) == Firsts(reports)
  {
    assert reports + [] == reports;
  }

  lemma OneMoreCounted<T>(xs: seq<T>, x: T)
    ensures multiset(xs + [x]) == multiset(xs) + multiset{x}
  {
  }

  lemma {:induction false} MatchPartitions(s: Site, rows: seq<Row>)
    requires SiteOk(s)
    ensures multiset(RowsOf(MatchedPlans(s, rows))) + multiset(Firsts(FirstReports(s, rows))) == multiset(rows)
  {
    if rows != [] {
      var init, r := rows[..|rows| - 1], rows[|rows| - 1];
      var plans, reports := MatchedPlans(s, init), FirstReports(s, init);
      MatchPartitions(s, init);
      OneMoreCounted(init, r);
      assert rows == init + [r];
      if Matched(s, r) {
        RowsOfMore(plans, PlanFor(s, r));
        OneMoreCounted(RowsOf(plans), r);
        FirstsMore(reports, r, NoMatch);
      } else {
        FirstsMore(reports, r, ReportOf(s, r));
        OneMoreCounted(Firsts(reports), r);
        assert plans + [] == plans;
      }
    }
  }

  lemma {:induction false} FoundNull(disk: Disk, walk: seq<(int, Path)>, known: set<Path>)
    ensures Found(disk, walk, known, None) == []
  {
    if walk != [] { FoundNull(disk, walk[..|walk| - 1], known); }
  }

  /** The loop over the missing rows, before split books are dropped. */
  method MatchRows(s: Site, missing: seq<Row>, unclaimed: map<string, seq<(int, Path)>>)
    returns (plans: seq<Plan>, unmatched: seq<(Row, Why)>)
    requires SiteOk(s) && missing == Gone(s)
    requires forall h ::
      Found(s.disk, s.walk, Known(s.libs, s.rows), Some(h)) == if h in unclaimed then unclaimed[h] else []
    ensures plans == MatchedPlans(s, missing) && unmatched == FirstReports(s, missing)
  {
    plans, unmatched := [], [];
    for i := 0 to |missing|
      invariant plans == MatchedPlans(s, missing[..i]) && unmatched == FirstReports(s, missing[..i])
    {
      var r := missing[i];
      assert missing[..i + 1][..i] == missing[..i];
      var found := if r.hash.Some? && r.hash.value in unclaimed then unclaimed[r.hash.value] else [];
      FoundNull(s.disk, s.walk, Known(s.libs, s.rows));
      assert r.hash.Some? ==> r.hash == Some(r.hash.value);
      assert found == FoundFor(s, r);
      if r.folder {
        unmatched := unmatched + [(r, FolderBased)];
      } else if |found| == 1 && Count(missing, r.hash) == 1 {
        plans := plans + [PlanFor(s, r)];
      } else {
        unmatched := unmatched + [(r, if found == [] then NoMatch else Shared(|found|))];
      }
    }
    assert missing[..|missing|] == missing;
  }

  // ---- dropping split books -----------------------------------------------------------------------

  function LibsOf(plans: seq<Plan>, book: int): set<int> {
    set p | p in plans && p.row.book == book :: p.newLib
  }

  lemma TwoElements(xs: set<int>, a: int, b: int)
    requires a in xs && b in xs && a != b
    ensures |xs| > 1
  {
    assert xs == {a, b} + (xs - {a, b});
    assert |{a, b}| == 2;
  }

  lemma AllOneElement(xs: set<int>, v: int)
    requires forall a :: a in xs ==> a == v
    ensures |xs| <= 1
  {
    assert xs <= {v} by { forall a | a in xs ensures a in {v} {} }
    assert {v} == xs + ({v} - xs);
  }

  lemma SplitsIs(s: Site, book: int)
    requires SiteOk(s)
    ensures Splits(s, book) <==> |LibsOf(MatchedPlans(s, Gone(s)), book)| > 1
  {
    var plans := MatchedPlans(s, Gone(s));
    var libs := LibsOf(plans, book);
    forall p ensures p in plans <==> p.row in Gone(s) && Matched(s, p.row) && p == PlanFor(s, p.row) {
      MatchedPlansAre(s, Gone(s), p);
    }
    if Splits(s, book) {
      var a, b :| a in Gone(s) && b in Gone(s) && a.book == book && b.book == book && Matched(s, a) && Matched(s, b)
        && PlanFor(s, a).newLib != PlanFor(s, b).newLib;
      assert PlanFor(s, a) in plans && PlanFor(s, b) in plans;
      TwoElements(libs, PlanFor(s, a).newLib, PlanFor(s, b).newLib);
    } else if p :| p in plans && p.row.book == book {
      forall v | v in libs ensures v == p.newLib {
        var q :| q in plans && q.row.book == book && q.newLib == v;
        assert PlanFor(s, q.row).newLib == PlanFor(s, p.row).newLib;
      }
      AllOneElement(libs, p.newLib);
    } else {
      assert libs == {};
    }
  }

  function Kept(plans: seq<Plan>, split: set<int>): seq<Plan> {
    if plans == [] then [] else
      var p := plans[|plans| - 1];
      Kept(plans[..|plans| - 1], split) + (if p.row.book in split then [] else [p])
  }

  function Dropped(plans: seq<Plan>, split: set<int>): seq<(Row, Why)> {
    if plans == [] then [] else
      var p := plans[|plans| - 1];
      Dropped(plans[..|plans| - 1], split) + (if p.row.book in split then [(p.row, SplitBook)] else [])
  }

  lemma {:induction false} KeptAre(plans: seq<Plan>, split: set<int>, p: Plan)
    ensures p in Kept(plans, split) <==> p in plans && p.row.book !in split
  {
    if plans != [] {
      KeptAre(plans[..|plans| - 1], split, p);
      assert plans == plans[..|plans| - 1] + [plans[|plans| - 1]];
    }
  }

  lemma {:induction false} DroppedAre(plans: seq<Plan>, split: set<int>, r: Row, w: Why)
    ensures (r, w) in Dropped(plans, split) <==> r.book in split && w == SplitBook && r in RowsOf(plans)
  {
    if plans != [] {
      var init, p := plans[..|plans| - 1], plans[|plans| - 1];
      DroppedAre(init, split, r, w);
      assert RowsOf(plans) == RowsOf(init) + [p.row];
    }
  }

  lemma {:induction false} KeptPartitions(plans: seq<Plan>, split: set<int>)
    ensures multiset(RowsOf(Kept(plans, split))) + multiset(Firsts(Dropped(plans, split))) == multiset(RowsOf(plans))
  {
    if plans != [] {
      var init, p := plans[..|plans| - 1], plans[|plans| - 1];
      KeptPartitions(init, split);
      OneMoreKept(plans, split);
      RowsOfMore(init, p);
      OneMoreCounted(RowsOf(init), p.row);
      assert plans == init + [p];
    }
  }

  lemma OneMoreKept(plans: seq<Plan>, split: set<int>)
    requires plans != []
    ensures var init, p := plans[..|plans| - 1], plans[|plans| - 1];
      multiset(RowsOf(Kept(plans, split))) + multiset(Firsts(Dropped(plans, split))) ==
      multiset(RowsOf(Kept(init, split))) + multiset(Firsts(Dropped(init, split))) + multiset{p.row}
  {
    var init, p := plans[..|plans| - 1], plans[|plans| - 1];
    var kept, dropped := Kept(init, split), Dropped(init, split);
    if p.row.book in split {
      FirstsMore(dropped, p.row, SplitBook);
      OneMoreCounted(Firsts(dropped), p.row);
      assert kept + [] == kept;
    } else {
      RowsOfMore(kept, p);
      OneMoreCounted(RowsOf(kept), p.row);
      assert dropped + [] == dropped;
    }
  }

  method SplitBooks(plans: seq<Plan>) returns (split: set<int>)
    ensures forall b :: b in split <==> |LibsOf(plans, b)| > 1
  {
    var byBook: map<int, set<int>> := map[];
    for i := 0 to |plans|
      invariant forall b :: LibsOf(plans[..i], b) == if b in byBook then byBook[b] else {}
    {
      var p := plans[i];
      assert plans[..i + 1] == plans[..i] + [p];
      forall b
        ensures LibsOf(plans[..i + 1], b) == LibsOf(plans[..i], b) + (if p.row.book == b then {p.newLib} else {})
      {
        assert forall q :: q in plans[..i + 1] <==> q in plans[..i] || q == p;
      }
      byBook := byBook[p.row.book := (if p.row.book in byBook then byBook[p.row.book] else {}) + {p.newLib}];
    }
    assert plans[..|plans|] == plans;
    split := set b | b in byBook && |byBook[b]| > 1;
  }

  /** The planning half of relink: every missing row is planned or reported, exactly once, and
      as its fate says. */
  method MakePlans(s: Site) returns (plans: seq<Plan>, unmatched: seq<(Row, Why)>)
    requires SiteOk(s)
    ensures forall p :: p in plans <==> Planned(s, p.row) && p == PlanFor(s, p.row)
    ensures forall r, w :: (r, w) in unmatched <==> r in Gone(s) && FateOf(s, r) == Reported(w)
    ensures multiset(RowsOf(plans)) + multiset(Firsts(unmatched)) == multiset(Gone(s))
  {
    var known, missing := FindMissing(s.libs, s.disk, s.rows);
    var unclaimed := Unclaimed(s.disk, s.walk, known);
    var matched, reports := MatchRows(s, missing, unclaimed);
    var split := SplitBooks(matched);
    plans := Kept(matched, split);
    unmatched := reports + Dropped(matched, split);
    PartitionOnce(s, matched, reports, split);
    FatesAre(s, matched, reports, split);
  }

  lemma PartitionOnce(s: Site, matched: seq<Plan>, reports: seq<(Row, Why)>, split: set<int>)
    requires SiteOk(s) && matched == MatchedPlans(s, Gone(s)) && reports == FirstReports(s, Gone(s))
    ensures multiset(RowsOf(Kept(matched, split))) + multiset(Firsts(reports + Dropped(matched, split))) ==
      multiset(Gone(s))
  {
    MatchPartitions(s, Gone(s));
    KeptPartitions(matched, split);
    FirstsConcat(reports, Dropped(matched, split));
  }

  lemma FirstsConcat(a: seq<(Row, Why)>, b: seq<(Row, Why)>)
    ensures multiset(Firsts(a + b)) == multiset(Firsts(a)) + multiset(Firsts(b))
  {
    assert Firsts(a + b) == Firsts(a) + Firsts(b);
  }

  lemma FatesAre(s: Site, matched: seq<Plan>, reports: seq<(Row, Why)>, split: set<int>)
    requires SiteOk(s) && matched == MatchedPlans(s, Gone(s)) && reports == FirstReports(s, Gone(s))
    requires forall b :: b in split <==> |LibsOf(matched, b)| > 1
    ensures forall p :: p in Kept(matched, split) <==> Planned(s, p.row) && p == PlanFor(s, p.row)
    ensures forall r, w :: (r, w) in reports + Dropped(matched, split) <==> r in Gone(s) && FateOf(s, r) == Reported(w)
  {
    forall b ensures b in split <==> Splits(s, b) { SplitsIs(s, b); }
    forall p ensures p in Kept(matched, split) <==> Planned(s, p.row) && p == PlanFor(s, p.row) {
      KeptAre(matched, split, p);
      MatchedPlansAre(s, Gone(s), p);
    }
    forall r, w ensures (r, w) in reports + Dropped(matched, split) <==> r in Gone(s) && FateOf(s, r) == Reported(w) {
      FirstReportsAre(s, Gone(s), r, w);
      DroppedAre(matched, split, r, w);
      MatchedRows(s, matched, r);
    }
  }

  lemma MatchedRows(s: Site, matched: seq<Plan>, r: Row)
    requires SiteOk(s) && matched == MatchedPlans(s, Gone(s))
    ensures r in RowsOf(matched) <==> r in Gone(s) && Matched(s, r)
  {
    if r in Gone(s) && Matched(s, r) {
      MatchedPlansAre(s, Gone(s), PlanFor(s, r));
      var i :| 0 <= i < |matched| && matched[i] == PlanFor(s, r);
      assert RowsOf(matched)[i] == r;
    }
    if r in RowsOf(matched) {
      var i :| 0 <= i < |matched| && RowsOf(matched)[i] == r;
      assert matched[i] in matched;
      MatchedPlansAre(s, Gone(s), matched[i]);
    }
  }

  // ---- the whole run -----------------------------------------------------------------------------------

  /** No row is missing twice. */
  lemma {:induction false} MissingOnce(libs: map<int, Path>, disk: Disk, rows: seq<Row>)
    requires Distinct(rows) && forall r :: r in rows ==> r.lib in libs
    ensures Distinct(Missing(libs, disk, rows))
  {
    if rows != [] {
      var init, last := rows[..|rows| - 1], rows[|rows| - 1];
      assert forall i :: 0 <= i < |init| ==> init[i] == rows[i];
      MissingOnce(libs, disk, init);
      MissingIs(libs, disk, init, last);
    }
  }

  lemma SameFileSameRow(s: Site, a: Row, b: Row)
    requires SiteOk(s) && a in s.rows && b in s.rows && a.fid == b.fid
    ensures a == b
  {
    var i :| 0 <= i < |s.rows| && s.rows[i] == a;
    var j :| 0 <= j < |s.rows| && s.rows[j] == b;
    if i < j {
      assert s.rows[i].fid != s.rows[j].fid;
    } else if j < i {
      assert s.rows[j].fid != s.rows[i].fid;
    }
  }

  /** What MakePlans returns. */
  ghost predicate Made(s: Site, plans: seq<Plan>, unmatched: seq<(Row, Why)>)
    requires SiteOk(s)
  {
    && (forall p :: p in plans <==> Planned(s, p.row) && p == PlanFor(s, p.row))
    && multiset(RowsOf(plans)) + multiset(Firsts(unmatched)) == multiset(Gone(s))
  }

  /** No file is planned twice. */
  lemma PlansAreDistinct(s: Site, plans: seq<Plan>, unmatched: seq<(Row, Why)>)
    requires SiteOk(s) && Made(s, plans, unmatched)
    ensures DistinctFiles(plans)
  {
    var rows := RowsOf(plans);
    assert Distinct(s.rows);
    MissingOnce(s.libs, s.disk, s.rows);
    DistinctByCount(Gone(s));
    assert forall r :: multiset(rows)[r] <= multiset(Gone(s))[r];
    DistinctByCount(rows);
    forall i, j | 0 <= i < j < |plans| ensures plans[i].row.fid != plans[j].row.fid {
      assert rows[i] != rows[j] && plans[i] in plans && plans[j] in plans;
      MissingIs(s.libs, s.disk, s.rows, plans[i].row);
      MissingIs(s.libs, s.disk, s.rows, plans[j].row);
      if plans[i].row.fid == plans[j].row.fid {
        SameFileSameRow(s, plans[i].row, plans[j].row);
      }
    }
  }

  /** On the database as it was read, every guard finds its row, in a live book it still belongs to. */
  lemma GuardsHold(s: Site, db: Db, p: Plan)
    requires SiteOk(s) && RowsFrom(db, s.rows) && Planned(s, p.row) && p == PlanFor(s, p.row)
    ensures Live(db, p.row.fid) && db.files[p.row.fid].book == p.row.book && db.files[p.row.fid].hash == p.row.hash
    ensures AsRead(db, p.row)
  {
    MissingIs(s.libs, s.disk, s.rows, p.row);
    PlanIsSound(s, p.row);
  }

  lemma LibsAreKnown(s: Site, db: Db, plans: seq<Plan>, unmatched: seq<(Row, Why)>)
    requires SiteOk(s) && RowsFrom(db, s.rows) && Made(s, plans, unmatched)
    ensures LibsKnown(s.libs, db, plans)
  {
    forall f | f in db.files && Live(db, f) ensures db.books[db.files[f].book].lib in s.libs {
      var x := db.files[f];
      var r := Row(f, x.book, db.books[x.book].lib, x.sub, x.name, x.hash, x.folder);
      assert r in s.rows;
    }
    forall p | p in plans ensures p.newLib in s.libs {
      PlanIsSound(s, p.row);
    }
  }

  /** The plans made from what was read, in one transaction on a database that may have changed since:
      it commits exactly when every guard finds its row, and then they are all made. */
  lemma CommittedPlans(s: Site, db: Db, plans: seq<Plan>, unmatched: seq<(Row, Why)>, countsChanged: bool)
    requires SiteOk(s) && Made(s, plans, unmatched)
    ensures OneLibrary(plans)
    ensures Commit(db, plans, countsChanged).Some? <==>
      forall p :: p in plans ==> AsRead(db, p.row) && !StaysInPlace(p, countsChanged)
    ensures Commit(db, plans, countsChanged).Some? ==> Relinked(db, plans, Commit(db, plans, countsChanged).value)
  {
    PlansAreDistinct(s, plans, unmatched);
    PlansAreTransaction(s, plans);
    CommitsExactlyWhen(db, plans, countsChanged);
    if Commit(db, plans, countsChanged).Some? {
      CommitRelinks(db, plans, countsChanged);
    }
  }

  /** What a commit leaves of the planned rows and of the others, on any database. */
  ghost predicate Outcome(s: Site, db: Db, plans: seq<Plan>, after: Db)
    requires SiteOk(s)
  {
    && Relinked(db, plans, after)
    && (forall p :: p in plans ==> (Restored(s, after, p.row.fid) <==>
          Live(db, p.row.fid) && exists lib :: FileIn(s, p, lib) && GoesTo(db, plans, db.files[p.row.fid].book, lib)))
    && (forall p :: p in plans && p.row.fid in db.files && db.files[p.row.fid].book == p.row.book ==>
          (Restored(s, after, p.row.fid) <==> Live(db, p.row.fid)))
    && (LibsKnown(s.libs, db, plans) ==> (OthersStay(s.libs, db, plans, after) <==> NoneLeftBehind(s.libs, db, plans)))
  }

  lemma OutcomeIs(s: Site, db: Db, plans: seq<Plan>, unmatched: seq<(Row, Why)>, countsChanged: bool)
    requires SiteOk(s) && Made(s, plans, unmatched) && Commit(db, plans, countsChanged).Some?
    ensures Outcome(s, db, plans, Commit(db, plans, countsChanged).value)
  {
    var after := Commit(db, plans, countsChanged).value;
    CommittedPlans(s, db, plans, unmatched, countsChanged);
    forall p | p in plans
      ensures Restored(s, after, p.row.fid) <==>
        Live(db, p.row.fid) && exists lib :: FileIn(s, p, lib) && GoesTo(db, plans, db.files[p.row.fid].book, lib)
    {
      RestoredExactlyWhen(s, db, plans, after, p);
    }
    forall p | p in plans && db.files[p.row.fid].book == p.row.book
      ensures Restored(s, after, p.row.fid) <==> Live(db, p.row.fid)
    {
      RestoredInItsBook(s, db, plans, after, p);
    }
    if LibsKnown(s.libs, db, plans) { OthersResolveExactlyWhen(s.libs, db, plans, after); }
  }

  /** On the database as it was read, nothing but a move within one place stops the transaction, and
      every planned row is restored. */
  lemma AsItWasRead(s: Site, db: Db, plans: seq<Plan>, unmatched: seq<(Row, Why)>, countsChanged: bool)
    requires SiteOk(s) && Made(s, plans, unmatched) && RowsFrom(db, s.rows)
    ensures LibsKnown(s.libs, db, plans)
    ensures Commit(db, plans, countsChanged).Some? <==> forall p :: p in plans ==> !StaysInPlace(p, countsChanged)
    ensures Commit(db, plans, countsChanged).Some? ==>
      forall p :: p in plans ==> Restored(s, Commit(db, plans, countsChanged).value, p.row.fid)
  {
    LibsAreKnown(s, db, plans, unmatched);
    CommittedPlans(s, db, plans, unmatched, countsChanged);
    forall p | p in plans
      ensures AsRead(db, p.row)
      ensures Live(db, p.row.fid) && db.files[p.row.fid].book == p.row.book
    {
      GuardsHold(s, db, p);
    }
    if Commit(db, plans, countsChanged).Some? {
      forall p | p in plans ensures Restored(s, Commit(db, plans, countsChanged).value, p.row.fid) {
        RestoredInItsBook(s, db, plans, Commit(db, plans, countsChanged).value, p);
      }
    }
  }

  /** The read-back of the plans made. */
  method ReadBack(s: Site, db: Db, plans: seq<Plan>) returns (bad: bool)
    ensures bad <==> exists p :: p in plans && !Confirmed(s, db, p)
  {
    bad := false;
    for i := 0 to |plans|
      invariant bad <==> exists p :: p in plans[..i] && !Confirmed(s, db, p)
    {
      assert plans[..i + 1] == plans[..i] + [plans[i]];
      assert forall p :: p in plans[..i + 1] <==> p in plans[..i] || p == plans[i];
      if !Confirmed(s, db, plans[i]) { bad := true; }
    }
    assert plans[..|plans|] == plans;
  }

  /** relink: `s` is what was read and found, `d` the database at the updates, whatever happened to it in
      between. The exit code is 2 when an update didn't find its row, 1 when a read-back failed. */
  method Relink(s: Site, d: Database, dryRun: bool, busy: bool, countsChanged: bool)
    returns (plans: seq<Plan>, committed: bool, code: nat)
    requires SiteOk(s)
    modifies d
    ensures forall p :: p in plans <==> Planned(s, p.row) && p == PlanFor(s, p.row)
    ensures committed <==>
      && !dryRun && plans != [] && !busy
      && forall p :: p in plans ==> AsRead(old(d.db), p.row) && !StaysInPlace(p, countsChanged)
    ensures !committed ==> d.db == old(d.db)
    ensures !committed ==> code == if dryRun || plans == [] || busy then 0 else 2
    ensures committed ==> code == if exists p :: p in plans && !Confirmed(s, d.db, p) then 1 else 0
    ensures committed ==> Outcome(s, old(d.db), plans, d.db)
    ensures committed && RowsFrom(old(d.db), s.rows) ==> forall p :: p in plans ==> Restored(s, d.db, p.row.fid)
    ensures RowsFrom(old(d.db), s.rows) ==> LibsKnown(s.libs, old(d.db), plans)
  {
    var unmatched;
    plans, unmatched := MakePlans(s);
    CommittedPlans(s, d.db, plans, unmatched, countsChanged);
    if RowsFrom(d.db, s.rows) { AsItWasRead(s, d.db, plans, unmatched, countsChanged); }
    if dryRun || plans == [] || busy {
      return plans, false, 0;
    }
    committed := d.Apply(plans, countsChanged);
    if !committed {
      return plans, false, 2;
    }
    OutcomeIs(s, old(d.db), plans, unmatched, countsChanged);
    var bad := ReadBack(s, d.db, plans);
    code := if bad then 1 else 0;
  }
}
