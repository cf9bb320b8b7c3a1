/** Delivering again what has been delivered: the papers table settles after the first time. */
module CorpusReplay {
  import opened Wrappers
  import opened CorpusIndex

  /** What the last of some papers under an identifier is, or else the paper there was. */
  function LastOf(batch: seq<Paper>, p: Paper): Paper {
    if batch == [] then p
    else if batch[|batch| - 1].id == p.id then batch[|batch| - 1]
    else LastOf(batch[..|batch| - 1], p)
  }

  lemma {:induction false} LastOfKeepsId(batch: seq<Paper>, p: Paper)
    ensures LastOf(batch, p).id == p.id
  {
    if batch != [] {
      LastOfKeepsId(batch[..|batch| - 1], p);
    }
  }

  /** The papers of a batch are in the table, each as its last version. */
  ghost predicate Settled(papers: map<RowId, Paper>, batch: seq<Paper>) {
    && UniqueIds(papers)
    && (forall r <- papers :: LastOf(batch, papers[r]) == papers[r])
    && (forall p <- batch :: RowOf(papers, p.id).Some?)
  }

  lemma UpsertOneUnique(n: Naming, db: Db, p: Paper)
    requires FreshRows(n) && UniqueIds(db.papers)
    ensures var after := UpsertOne(n, db, p).papers;
            && UniqueIds(after)
            && (forall r <- after ::
                  after[r] == p || (r in db.papers && after[r] == db.papers[r] && after[r].id != p.id))
            && (forall id :: RowOf(after, id).Some? <==> RowOf(db.papers, id).Some? || id == p.id)
  {
    var after := UpsertOne(n, db, p).papers;
    var row := RowOf(db.papers, p.id);
    var r := if row.Some? then row.value else n.freshRow(db.papers.Keys);
    assert r in after && after[r] == p;
    forall id ensures RowOf(after, id).Some? <==> RowOf(db.papers, id).Some? || id == p.id {
      if RowOf(db.papers, id).Some? && id != p.id {
        var other := RowOf(db.papers, id).value;
        assert other in after && after[other].id == id;
      }
    }
  }

  ghost predicate Names(batch: seq<Paper>, id: PaperId) { exists p :: p in batch && p.id == id }

  /** A paper that a batch does not name stays as it was, and every row keeps its identifier. */
  ghost predicate OthersStay(before: map<RowId, Paper>, after: map<RowId, Paper>, batch: seq<Paper>) {
    && (forall r <- after :: Names(batch, after[r].id) || (r in before && after[r] == before[r]))
    && (forall r <- before :: r in after && after[r].id == before[r].id)
    && (forall r <- before :: Names(batch, before[r].id) || after[r] == before[r])
  }

  lemma UpsertOneOthers(n: Naming, db: Db, p: Paper)
    requires FreshRows(n) && UniqueIds(db.papers)
    ensures OthersStay(db.papers, UpsertOne(n, db, p).papers, [p])
  {
    assert p in [p];
  }

  lemma OneMoreOthers(n: Naming, db: Db, some: seq<Paper>, p: Paper)
    requires FreshRows(n) && UniqueIds(db.papers) && OthersStay(db.papers, Upsert(n, db, some).papers, some)
    ensures OthersStay(db.papers, Upsert(n, db, some + [p]).papers, some + [p])
  {
    var middle := Upsert(n, db, some);
    assert (some + [p])[..|some|] == some;
    UpsertSettles(n, db, some);
    UpsertOneOthers(n, middle, p);
    OthersStayOn(db.papers, middle.papers, UpsertOne(n, middle, p).papers, some, [p]);
  }

  lemma {:induction false} UpsertOthers(n: Naming, db: Db, batch: seq<Paper>)
    requires FreshRows(n) && UniqueIds(db.papers)
    ensures OthersStay(db.papers, Upsert(n, db, batch).papers, batch)
  {
    if batch != [] {
      var k := |batch| - 1;
      UpsertOthers(n, db, batch[..k]);
      OneMoreOthers(n, db, batch[..k], batch[k]);
      assert batch == batch[..k] + [batch[k]];
    }
  }

  lemma OthersStayOn(before: map<RowId, Paper>, middle: map<RowId, Paper>, after: map<RowId, Paper>, a: seq<Paper>,
                     b: seq<Paper>)
    requires OthersStay(before, middle, a) && OthersStay(middle, after, b)
    ensures OthersStay(before, after, a + b)
  {
    forall id | Names(a, id) || Names(b, id) ensures Names(a + b, id) {
      var p :| (p in a || p in b) && p.id == id;
      assert p in a + b;
    }
  }

  /** However often a batch repeats a paper, its last version is what stays. */
  lemma {:induction false} UpsertSettles(n: Naming, db: Db, batch: seq<Paper>)
    requires FreshRows(n) && UniqueIds(db.papers)
    ensures Settled(Upsert(n, db, batch).papers, batch)
  {
    if batch != [] {
      var k := |batch| - 1;
      var middle := Upsert(n, db, batch[..k]);
      assert batch == batch[..k] + [batch[k]];
      UpsertSettles(n, db, batch[..k]);
      UpsertOneUnique(n, middle, batch[k]);
    }
  }

  /** Every row takes the last version its identifier has in the batch. */
  function Overwritten(papers: map<RowId, Paper>, batch: seq<Paper>): map<RowId, Paper> {
    map r | r in papers :: LastOf(batch, papers[r])
  }

  lemma OverwrittenIds(papers: map<RowId, Paper>, batch: seq<Paper>)
    requires UniqueIds(papers)
    ensures UniqueIds(Overwritten(papers, batch))
    ensures forall id :: RowOf(Overwritten(papers, batch), id) == RowOf(papers, id)
  {
    var over := Overwritten(papers, batch);
    forall r <- papers ensures over[r].id == papers[r].id {
      LastOfKeepsId(batch, papers[r]);
    }
    forall id ensures RowOf(over, id) == RowOf(papers, id) {
      if RowOf(papers, id).Some? {
        RowOfUnique(papers, RowOf(papers, id).value);
        RowOfUnique(over, RowOf(papers, id).value);
      }
    }
  }

  /** A batch of papers that are all there already adds no row. */
  lemma {:induction false} UpsertKnown(n: Naming, db: Db, batch: seq<Paper>)
    requires UniqueIds(db.papers) && forall p <- batch :: RowOf(db.papers, p.id).Some?
    ensures Upsert(n, db, batch).papers == Overwritten(db.papers, batch)
  {
    if batch != [] {
      var k := |batch| - 1;
      assert batch[k] in batch && forall p <- batch[..k] :: p in batch;
      UpsertKnown(n, db, batch[..k]);
      OverwrittenIds(db.papers, batch[..k]);
      OverwriteOne(db.papers, batch);
    }
  }

  lemma OverwriteOne(papers: map<RowId, Paper>, batch: seq<Paper>)
    requires UniqueIds(papers) && batch != [] && RowOf(papers, batch[|batch| - 1].id).Some?
    ensures var k := |batch| - 1;
            Overwritten(papers, batch) == Overwritten(papers, batch[..k])[RowOf(papers, batch[k].id).value := batch[k]]
  {
  }

  lemma {:induction false} UpsertInTwo(n: Naming, db: Db, a: seq<Paper>, b: seq<Paper>)
    ensures Upsert(n, db, a + b) == Upsert(n, Upsert(n, db, a), b)
  {
    if b == [] {
      assert a + b == a;
    } else {
      var k := |b| - 1;
      assert (a + b)[..|a + b| - 1] == a + b[..k];
      UpsertInTwo(n, db, a, b[..k]);
    }
  }

  /** The papers of all batches, in order. */
  function Flat(batches: seq<seq<Paper>>): seq<Paper> {
    if batches == [] then [] else Flat(batches[..|batches| - 1]) + batches[|batches| - 1]
  }

  lemma {:induction false} UpsertAllIsFlat(n: Naming, papers: map<RowId, Paper>, batches: seq<seq<Paper>>)
    ensures UpsertAll(n, papers, batches) == Upsert(n, Db(papers, map[]), Flat(batches)).papers
  {
    if batches != [] {
      var k := |batches| - 1;
      UpsertAllIsFlat(n, papers, batches[..k]);
      UpsertInTwo(n, Db(papers, map[]), Flat(batches[..k]), batches[k]);
      UpsertIgnoresIndex(n, Upsert(n, Db(papers, map[]), Flat(batches[..k])).papers,
                         Upsert(n, Db(papers, map[]), Flat(batches[..k])).fts, batches[k]);
    }
  }

  lemma UpsertAllSettles(n: Naming, papers: map<RowId, Paper>, batches: seq<seq<Paper>>)
    requires FreshRows(n) && UniqueIds(papers)
    ensures Settled(UpsertAll(n, papers, batches), Flat(batches))
  {
    UpsertAllIsFlat(n, papers, batches);
    UpsertSettles(n, Db(papers, map[]), Flat(batches));
  }

  lemma UpsertAllOthers(n: Naming, papers: map<RowId, Paper>, batches: seq<seq<Paper>>)
    requires FreshRows(n) && UniqueIds(papers)
    ensures OthersStay(papers, UpsertAll(n, papers, batches), Flat(batches))
  {
    UpsertAllIsFlat(n, papers, batches);
    UpsertOthers(n, Db(papers, map[]), Flat(batches));
  }

  /** What has just been delivered can be delivered again without any effect. */
  lemma AgainIsIdle(n: Naming, papers: map<RowId, Paper>, batches: seq<seq<Paper>>)
    requires FreshRows(n) && UniqueIds(papers)
    ensures UpsertAll(n, UpsertAll(n, papers, batches), batches) == UpsertAll(n, papers, batches)
  {
    var after := UpsertAll(n, papers, batches);
    UpsertAllSettles(n, papers, batches);
    SettledIsIdle(n, after, batches);
  }

  /**
   * A run that was cut short after some batches and delivers all of them from there ends as if it had not been cut
   * short.
   */
  lemma CutShortIsCaughtUp(n: Naming, papers: map<RowId, Paper>, batches: seq<seq<Paper>>, commits: nat)
    requires FreshRows(n) && UniqueIds(papers) && commits <= |batches|
    ensures UpsertAll(n, UpsertAll(n, papers, batches[..commits]), batches) == UpsertAll(n, papers, batches)
  {
    var done := UpsertAll(n, papers, batches[..commits]);
    assert batches == batches[..commits] + batches[commits..];
    AgainIsIdle(n, papers, batches[..commits]);
    UpsertAllInTwo(n, done, batches[..commits], batches[commits..]);
    UpsertAllInTwo(n, papers, batches[..commits], batches[commits..]);
  }

  // ---------------------------------------------------------------- parts of what was delivered

  lemma {:induction false} LastOfInTwo(a: seq<Paper>, b: seq<Paper>, p: Paper)
    ensures LastOf(a + b, p) == LastOf(b, LastOf(a, p))
  {
    if b == [] {
      assert a + b == a;
    } else {
      var k := |b| - 1;
      LastOfKeepsId(a, p);
      LastOfInTwo(a, b[..k], p);
      assert (a + b)[..|a + b| - 1] == a + b[..k];
    }
  }

  /** A paper that a batch names is forgotten for the batch's own last version; others are left alone. */
  lemma {:induction false} LastOfNamed(batch: seq<Paper>, p: Paper, q: Paper)
    requires p.id == q.id
    ensures (forall x <- batch :: x.id != p.id) ==> LastOf(batch, p) == p
    ensures (exists x <- batch :: x.id == p.id) ==> LastOf(batch, p) == LastOf(batch, q)
  {
    if batch != [] {
      var k := |batch| - 1;
      assert batch == batch[..k] + [batch[k]] && batch[k] in batch;
      LastOfNamed(batch[..k], p, q);
    }
  }

  lemma SettledSuffix(papers: map<RowId, Paper>, a: seq<Paper>, b: seq<Paper>)
    requires Settled(papers, a + b)
    ensures Settled(papers, b)
  {
    forall r <- papers ensures LastOf(b, papers[r]) == papers[r] {
      LastOfInTwo(a, b, papers[r]);
      LastOfKeepsId(a, papers[r]);
      LastOfNamed(b, papers[r], LastOf(a, papers[r]));
    }
    forall p <- b ensures RowOf(papers, p.id).Some? {
      assert p in a + b;
    }
  }

  lemma SettledPrefix(papers: map<RowId, Paper>, a: seq<Paper>, b: seq<Paper>)
    requires Settled(papers, a + b) && forall p, q :: p in a && q in b ==> p.id != q.id
    ensures Settled(papers, a)
  {
    forall r <- papers ensures LastOf(a, papers[r]) == papers[r] {
      LastOfInTwo(a, b, papers[r]);
      LastOfKeepsId(a, papers[r]);
      LastOfNamed(a, papers[r], papers[r]);
      LastOfNamed(b, LastOf(a, papers[r]), papers[r]);
    }
    forall p <- a ensures RowOf(papers, p.id).Some? {
      assert p in a + b;
    }
  }

  lemma SettledUnion(papers: map<RowId, Paper>, a: seq<Paper>, b: seq<Paper>)
    requires Settled(papers, a) && Settled(papers, b)
    ensures Settled(papers, a + b)
  {
    forall r <- papers ensures LastOf(a + b, papers[r]) == papers[r] {
      LastOfInTwo(a, b, papers[r]);
    }
  }

  lemma FlatSnoc(a: seq<seq<Paper>>, x: seq<Paper>)
    ensures Flat(a + [x]) == Flat(a) + x
  {
    assert (a + [x])[..|a|] == a;
  }

  lemma {:induction false} FlatInTwo(a: seq<seq<Paper>>, b: seq<seq<Paper>>)
    ensures Flat(a + b) == Flat(a) + Flat(b)
  {
    if b == [] {
      assert a + b == a;
    } else {
      var k := |b| - 1;
      FlatInTwo(a, b[..k]);
      FlatSnoc(a + b[..k], b[k]);
      assert a + b == (a + b[..k]) + [b[k]];
    }
  }

  /** What the table has settled on can be delivered again without any effect. */
  lemma SettledIsIdle(n: Naming, papers: map<RowId, Paper>, batches: seq<seq<Paper>>)
    requires Settled(papers, Flat(batches))
    ensures UpsertAll(n, papers, batches) == papers
  {
    UpsertAllIsFlat(n, papers, batches);
    UpsertKnown(n, Db(papers, map[]), Flat(batches));
  }
}
