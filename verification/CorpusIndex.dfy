/**
 * The corpus database as a value: the papers table, the full-text table that is kept beside it by hand, and the
 * statements that change them. The full-text table has its own content, keyed by rowid, and refuses a rowid it
 * already holds; a new paper row gets some rowid not in use, which the table chooses.
 */
module CorpusIndex {
  import opened Wrappers

  type RowId = nat
  type PaperId = string
  type Source = string

  datatype Paper = Paper(id: PaperId, source: Source, title: string, summary: string, authors: string,
                         categories: string, primary: Option<string>, other: string)

  /** The four columns of one full-text entry. */
  datatype Entry = Entry(title: string, summary: string, authors: string, categories: string)

  function Columns(p: Paper): Entry { Entry(p.title, p.summary, p.authors, p.categories) }

  datatype Db = Db(papers: map<RowId, Paper>, fts: map<RowId, Entry>)

  /** How the papers table picks a rowid for a new row, and which source an identifier belongs to. */
  datatype Naming = Naming(freshRow: set<RowId> -> RowId, owner: PaperId -> Source)

  ghost predicate FreshRows(n: Naming) { forall used: set<RowId> :: n.freshRow(used) !in used }

  // ---------------------------------------------------------------- statements

  /** The primary key of the papers table. */
  ghost predicate UniqueIds(papers: map<RowId, Paper>) {
    forall a, b :: a in papers && b in papers && papers[a].id == papers[b].id ==> a == b
  }

  ghost function RowOf(papers: map<RowId, Paper>, id: PaperId): Option<RowId> {
    if exists r :: r in papers && papers[r].id == id then
      var r :| r in papers && papers[r].id == id;
      Some(r)
    else None
  }

  /** INSERT ... ON CONFLICT(id) DO UPDATE: an existing row keeps its rowid. */
  ghost function UpsertOne(n: Naming, db: Db, p: Paper): Db {
    match RowOf(db.papers, p.id)
    case Some(r) => db.(papers := db.papers[r := p])
    case None => db.(papers := db.papers[n.freshRow(db.papers.Keys) := p])
  }

  ghost function Upsert(n: Naming, db: Db, batch: seq<Paper>): Db {
    if batch == [] then db else UpsertOne(n, Upsert(n, db, batch[..|batch| - 1]), batch[|batch| - 1])
  }

  /** The papers table after batch upon batch. */
  ghost function UpsertAll(n: Naming, papers: map<RowId, Paper>, batches: seq<seq<Paper>>): map<RowId, Paper> {
    if batches == [] then papers
    else Upsert(n, Db(UpsertAll(n, papers, batches[..|batches| - 1]), map[]), batches[|batches| - 1]).papers
  }

  lemma {:induction false} UpsertIgnoresIndex(n: Naming, papers: map<RowId, Paper>, fts: map<RowId, Entry>,
                                              batch: seq<Paper>)
    ensures Upsert(n, Db(papers, fts), batch).papers == Upsert(n, Db(papers, map[]), batch).papers
  {
    if batch != [] {
      UpsertIgnoresIndex(n, papers, fts, batch[..|batch| - 1]);
    }
  }

  lemma {:induction false} UpsertAllInTwo(n: Naming, papers: map<RowId, Paper>, a: seq<seq<Paper>>, b: seq<seq<Paper>>)
    ensures UpsertAll(n, papers, a + b) == UpsertAll(n, UpsertAll(n, papers, a), b)
  {
    if b == [] {
      assert a + b == a;
    } else {
      var k := |b| - 1;
      assert (a + b)[..|a + b| - 1] == a + b[..k];
      UpsertAllInTwo(n, papers, a, b[..k]);
    }
  }

  function RowsOfSource(papers: map<RowId, Paper>, source: Source): set<RowId> {
    set r | r in papers && papers[r].source == source
  }

  function DropSource(db: Db, source: Source): Db {
    Db(db.papers - RowsOfSource(db.papers, source), db.fts - RowsOfSource(db.papers, source))
  }

  function EntriesOf(papers: map<RowId, Paper>, rows: set<RowId>): map<RowId, Entry> {
    map r | r in rows && r in papers :: Columns(papers[r])
  }

  /** INSERT INTO papers_fts SELECT ...: refused as a whole when one of the rowids is already indexed. */
  function IndexSource(db: Db, source: Source): Option<Db> {
    var rows := RowsOfSource(db.papers, source);
    if rows !! db.fts.Keys then Some(db.(fts := db.fts + EntriesOf(db.papers, rows))) else None
  }

  /** The rows that carry one of the identifiers, as often as they are named. */
  ghost function RowsNamed(papers: map<RowId, Paper>, ids: seq<PaperId>): seq<RowId> {
    if ids == [] then []
    else
      var row := RowOf(papers, ids[|ids| - 1]);
      RowsNamed(papers, ids[..|ids| - 1]) + if row.Some? then [row.value] else []
  }

  function AsSet(rows: seq<RowId>): set<RowId> { set r | r in rows }

  ghost predicate NoRepeats<T(!new)>(s: seq<T>) { forall i, j :: 0 <= i < j < |s| ==> s[i] != s[j] }

  /**
   * Delete the named rows from the index, then insert each again: a row named twice is refused at its second insert.
   */
  ghost function IndexPapers(db: Db, ids: seq<PaperId>): Option<Db> {
    var rows := RowsNamed(db.papers, ids);
    var named := AsSet(rows);
    if NoRepeats(rows) then Some(db.(fts := (db.fts - named) + EntriesOf(db.papers, named))) else None
  }

  // ---------------------------------------------------------------- agreement

  /** While some sources wait for their index: every other row has its entry, and the waiting rows have none. */
  ghost predicate Building(db: Db, pending: set<Source>) {
    && (forall r <- db.fts :: r in db.papers && db.papers[r].source !in pending && db.fts[r] == Columns(db.papers[r]))
    && (forall r <- db.papers :: db.papers[r].source !in pending ==> r in db.fts)
  }

  /** The index holds exactly one entry per paper, with that paper's current columns, and nothing else. */
  ghost predicate Agrees(db: Db) {
    && db.fts.Keys == db.papers.Keys
    && forall r <- db.papers ::
         && db.fts[r].title == db.papers[r].title && db.fts[r].summary == db.papers[r].summary
         && db.fts[r].authors == db.papers[r].authors && db.fts[r].categories == db.papers[r].categories
  }

  lemma AgreesIsBuilt(db: Db)
    ensures Agrees(db) <==> Building(db, {})
  {
  }

  /** Identifiers are unique and each row belongs to the source that owns its identifier. */
  ghost predicate Proper(n: Naming, db: Db) {
    UniqueIds(db.papers) && forall r <- db.papers :: n.owner(db.papers[r].id) == db.papers[r].source
  }

  /** A batch of one source, under identifiers of that source. */
  ghost predicate BatchOf(n: Naming, batch: seq<Paper>, source: Source) {
    forall p <- batch :: p.source == source && n.owner(p.id) == source
  }

  lemma UpsertOneProper(n: Naming, db: Db, p: Paper)
    requires FreshRows(n) && Proper(n, db) && n.owner(p.id) == p.source
    ensures Proper(n, UpsertOne(n, db, p))
  {
  }

  /** What upserting a batch may do: rows stay, keep their source, and change only into papers of the batch. */
  ghost predicate Rewrites(db: Db, after: Db, batch: seq<Paper>) {
    && after.fts == db.fts
    && (forall r <- db.papers :: r in after.papers && after.papers[r].source == db.papers[r].source)
    && (forall r <- after.papers :: (r in db.papers && after.papers[r] == db.papers[r]) || after.papers[r] in batch)
  }

  lemma UpsertOneRewrites(n: Naming, db: Db, p: Paper)
    requires FreshRows(n) && Proper(n, db) && n.owner(p.id) == p.source
    ensures Rewrites(db, UpsertOne(n, db, p), [p])
    ensures exists r <- UpsertOne(n, db, p).papers :: UpsertOne(n, db, p).papers[r] == p
  {
  }

  lemma {:induction false} UpsertRewrites(n: Naming, db: Db, batch: seq<Paper>, source: Source)
    requires FreshRows(n) && Proper(n, db) && BatchOf(n, batch, source)
    ensures Proper(n, Upsert(n, db, batch)) && Rewrites(db, Upsert(n, db, batch), batch)
  {
    if batch != [] {
      var k := |batch| - 1;
      var middle := Upsert(n, db, batch[..k]);
      assert batch[k] in batch && forall p <- batch[..k] :: p in batch;
      UpsertRewrites(n, db, batch[..k], source);
      UpsertOneProper(n, middle, batch[k]);
      UpsertOneRewrites(n, middle, batch[k]);
    }
  }

  /** Upserting into a waiting source leaves the index as good as it was. */
  lemma UpsertWaiting(n: Naming, db: Db, batch: seq<Paper>, source: Source, pending: set<Source>)
    requires FreshRows(n) && Proper(n, db) && BatchOf(n, batch, source) && Building(db, pending) && source in pending
    ensures Proper(n, Upsert(n, db, batch)) && Building(Upsert(n, db, batch), pending)
  {
    UpsertRewrites(n, db, batch, source);
  }

  // ---------------------------------------------------------------- indexing named rows

  lemma RowOfUnique(papers: map<RowId, Paper>, r: RowId)
    requires UniqueIds(papers) && r in papers
    ensures RowOf(papers, papers[r].id) == Some(r)
  {
  }

  lemma {:induction false} RowsNamedMembers(papers: map<RowId, Paper>, ids: seq<PaperId>, r: RowId)
    requires UniqueIds(papers)
    ensures r in RowsNamed(papers, ids) <==> r in papers && papers[r].id in ids
  {
    if ids != [] {
      var k := |ids| - 1;
      RowsNamedMembers(papers, ids[..k], r);
      assert ids == ids[..k] + [ids[k]];
      if r in papers {
        RowOfUnique(papers, r);
      }
    }
  }

  /** When every identifier has a row, rows repeat exactly when identifiers do. */
  lemma {:induction false} RowsRepeatWithIds(papers: map<RowId, Paper>, ids: seq<PaperId>)
    requires UniqueIds(papers) && forall id <- ids :: RowOf(papers, id).Some?
    ensures |RowsNamed(papers, ids)| == |ids|
    ensures forall i | 0 <= i < |ids| :: RowOf(papers, ids[i]) == Some(RowsNamed(papers, ids)[i])
  {
    if ids != [] {
      var k := |ids| - 1;
      assert ids[k] in ids && forall id <- ids[..k] :: id in ids;
      RowsRepeatWithIds(papers, ids[..k]);
    }
  }

  function Ids(batch: seq<Paper>): seq<PaperId> { seq(|batch|, i requires 0 <= i < |batch| => batch[i].id) }

  lemma {:induction false} UpsertHasIds(n: Naming, db: Db, batch: seq<Paper>, source: Source)
    requires FreshRows(n) && Proper(n, db) && BatchOf(n, batch, source)
    ensures forall id <- Ids(batch) :: RowOf(Upsert(n, db, batch).papers, id).Some?
  {
    if batch != [] {
      var k := |batch| - 1;
      var middle := Upsert(n, db, batch[..k]);
      assert batch[k] in batch && forall p <- batch[..k] :: p in batch;
      UpsertHasIds(n, db, batch[..k], source);
      UpsertRewrites(n, db, batch[..k], source);
      UpsertOneRewrites(n, middle, batch[k]);
      UpsertOneKeepsIds(n, middle, batch[k]);
      forall id <- Ids(batch) ensures RowOf(Upsert(n, db, batch).papers, id).Some? {
        if id != batch[k].id {
          assert id in Ids(batch[..k]) by {
            var i :| 0 <= i < |batch| && Ids(batch)[i] == id;
            assert Ids(batch[..k])[i] == id;
          }
        }
      }
    }
  }

  lemma UpsertOneKeepsIds(n: Naming, db: Db, p: Paper)
    requires FreshRows(n) && Proper(n, db) && n.owner(p.id) == p.source
    ensures forall id :: RowOf(db.papers, id).Some? ==> RowOf(UpsertOne(n, db, p).papers, id).Some?
  {
    forall id | RowOf(db.papers, id).Some? ensures RowOf(UpsertOne(n, db, p).papers, id).Some? {
      var r := RowOf(db.papers, id).value;
      assert r in UpsertOne(n, db, p).papers && UpsertOne(n, db, p).papers[r].id == id;
    }
  }

  /** Re-indexing the rows of a batch of an indexed source restores the index, exactly when no identifier repeats. */
  lemma UpsertThenIndex(n: Naming, db: Db, batch: seq<Paper>, source: Source, pending: set<Source>)
    requires FreshRows(n) && Proper(n, db) && BatchOf(n, batch, source) && Building(db, pending) && source !in pending
    ensures var after := IndexPapers(Upsert(n, db, batch), Ids(batch));
            && (after.Some? <==> NoRepeats(Ids(batch)))
            && (after.Some? ==>
                Proper(n, after.value) && Building(after.value, pending)
                && after.value.papers == Upsert(n, db, batch).papers)
  {
    var middle := Upsert(n, db, batch);
    UpsertRewrites(n, db, batch, source);
    UpsertHasIds(n, db, batch, source);
    RowsRepeatWithIds(middle.papers, Ids(batch));
    var rows := RowsNamed(middle.papers, Ids(batch));
    RepeatsAgree(middle.papers, Ids(batch));
    if NoRepeats(rows) {
      forall r ensures r in rows <==> r in middle.papers && middle.papers[r].id in Ids(batch) {
        RowsNamedMembers(middle.papers, Ids(batch), r);
      }
      RestoredIndex(n, db, middle, batch, source, pending, rows);
    }
  }

  /** The input that is refused: a batch that names one paper twice, delivered to an empty, agreeing database. */
  lemma TwiceInABatch(n: Naming)
    requires FreshRows(n) && n.owner("2401.00001") == "arxiv"
    ensures var p := Paper("2401.00001", "arxiv", "A title", "An abstract", "An author", "|cs.LG|", Some("cs.LG"), "");
            var empty := Db(map[], map[]);
            && Agrees(empty) && BatchOf(n, [p, p], "arxiv")
            && IndexPapers(Upsert(n, empty, [p, p]), Ids([p, p])) == None
  {
    var p := Paper("2401.00001", "arxiv", "A title", "An abstract", "An author", "|cs.LG|", Some("cs.LG"), "");
    var empty := Db(map[], map[]);
    assert Ids([p, p])[0] == Ids([p, p])[1];
    UpsertThenIndex(n, empty, [p, p], "arxiv", {});
  }

  lemma RepeatsAgree(papers: map<RowId, Paper>, ids: seq<PaperId>)
    requires UniqueIds(papers) && forall id <- ids :: RowOf(papers, id).Some?
    ensures NoRepeats(RowsNamed(papers, ids)) <==> NoRepeats(ids)
  {
    RowsRepeatWithIds(papers, ids);
    var rows := RowsNamed(papers, ids);
    if NoRepeats(ids) {
      forall i, j | 0 <= i < j < |rows| ensures rows[i] != rows[j] {
        assert papers[rows[i]].id == ids[i] && papers[rows[j]].id == ids[j];
      }
    }
    if NoRepeats(rows) {
      forall i, j | 0 <= i < j < |ids| ensures ids[i] != ids[j] {
        assert RowOf(papers, ids[i]) == Some(rows[i]) && RowOf(papers, ids[j]) == Some(rows[j]);
      }
    }
  }

  lemma RestoredIndex(n: Naming, db: Db, middle: Db, batch: seq<Paper>, source: Source, pending: set<Source>,
                      rows: seq<RowId>)
    requires Building(db, pending) && source !in pending && Rewrites(db, middle, batch) && Proper(n, middle)
             && BatchOf(n, batch, source)
    requires forall r :: r in rows <==> r in middle.papers && middle.papers[r].id in Ids(batch)
    ensures var named := AsSet(rows);
            Building(middle.(fts := (middle.fts - named) + EntriesOf(middle.papers, named)), pending)
  {
    forall r | r in middle.papers && middle.papers[r] in batch ensures r in rows {
      var i :| 0 <= i < |batch| && batch[i] == middle.papers[r];
      assert Ids(batch)[i] == middle.papers[r].id;
    }
    forall r <- rows ensures middle.papers[r].source == source {
      var i :| 0 <= i < |batch| && Ids(batch)[i] == middle.papers[r].id;
      assert batch[i] in batch;
    }
  }

  /** Indexing one waiting source is never refused, and takes exactly that source off the waiting list. */
  lemma IndexSourceFinishes(db: Db, source: Source, pending: set<Source>)
    requires Building(db, pending) && source in pending
    ensures IndexSource(db, source).Some? && Building(IndexSource(db, source).value, pending - {source})
  {
  }

  lemma DropSourceKeeps(n: Naming, db: Db, source: Source, pending: set<Source>)
    requires Proper(n, db) && Building(db, pending)
    ensures Proper(n, DropSource(db, source)) && Building(DropSource(db, source), pending)
  {
  }
}
