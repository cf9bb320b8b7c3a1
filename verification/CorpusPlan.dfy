/** What a provisioning run is to do, and what the papers table then holds. */
module CorpusPlan {
  import opened Wrappers
  import opened CorpusIndex
  import opened CorpusReplay

  /** What one source adapter delivers: its baseline when it is reingested, then its catch-up feed. */
  datatype Work = Work(source: Source, ingest: seq<seq<Paper>>, catchUp: seq<seq<Paper>>)

  function SourcesOf(plan: seq<Work>): set<Source> { set w | w in plan :: w.source }

  /** The sources that are ingested anew and indexed at the end. */
  function Reingested(plan: seq<Work>, current: set<Source>): set<Source> { SourcesOf(plan) - current }

  ghost predicate WorkOk(n: Naming, w: Work) {
    && (forall batch <- w.ingest :: BatchOf(n, batch, w.source))
    && (forall batch <- w.catchUp :: BatchOf(n, batch, w.source))
  }

  /** One profile per source, every batch under identifiers of its source, and only planned sources count as current. */
  ghost predicate PlanOk(n: Naming, plan: seq<Work>, current: set<Source>) {
    && (forall w <- plan :: WorkOk(n, w))
    && (forall i, j :: 0 <= i < j < |plan| ==> plan[i].source != plan[j].source)
    && current <= SourcesOf(plan)
  }

  /** No identifier repeats within a batch that is indexed record by record. */
  ghost predicate Distinct(batches: seq<seq<Paper>>) { forall batch <- batches :: NoRepeats(Ids(batch)) }

  ghost predicate FeedOk(w: Work) { Distinct(w.catchUp) }

  /**
   * The sources that are kept as they are, whose catch-up is indexed record by record, repeat no identifier in a batch.
   */
  ghost predicate FeedsFit(plan: seq<Work>, current: set<Source>) {
    forall w <- plan :: w.source in current ==> FeedOk(w)
  }

  /** What a run starts with: a fresh one drops the sources that are not kept. */
  function Begins(papers: map<RowId, Paper>, current: set<Source>, resumed: bool): map<RowId, Paper> {
    if resumed then papers else KeptRows(papers, current)
  }

  /** The papers every batch of a run gives, in order, from what the run starts with. */
  ghost function Gathered(n: Naming, papers: map<RowId, Paper>, plan: seq<Work>, current: set<Source>,
                          resumed: bool): map<RowId, Paper> {
    UpsertAll(n, Begins(papers, current, resumed), AllBatches(plan, current))
  }

  ghost predicate FeedsOk(feeds: seq<Work>) { forall w <- feeds :: FeedOk(w) }

  lemma FeedsOkGrows(feeds: seq<Work>, i: nat)
    requires i < |feeds|
    ensures FeedsOk(feeds[..i + 1]) <==> FeedsOk(feeds[..i]) && FeedOk(feeds[i])
    ensures FeedsOk(feeds) ==> FeedOk(feeds[i])
  {
    assert feeds[i] in feeds && feeds[..i + 1] == feeds[..i] + [feeds[i]];
  }

  /** The rows of the sources that are kept as they are. */
  function KeptRows(papers: map<RowId, Paper>, current: set<Source>): map<RowId, Paper> {
    map r | r in papers && papers[r].source in current :: papers[r]
  }

  /** Every batch of a run in the order it is delivered: a current source skips its baseline. */
  function BatchesOf(w: Work, current: set<Source>): seq<seq<Paper>> {
    (if w.source in current then [] else w.ingest) + w.catchUp
  }

  function AllBatches(plan: seq<Work>, current: set<Source>): seq<seq<Paper>> {
    if plan == [] then [] else AllBatches(plan[..|plan| - 1], current) + BatchesOf(plan[|plan| - 1], current)
  }

  function CatchUps(feeds: seq<Work>): seq<seq<Paper>> {
    if feeds == [] then [] else CatchUps(feeds[..|feeds| - 1]) + feeds[|feeds| - 1].catchUp
  }

  /** Every row belongs to a planned source, and exactly the sources still to be indexed are missing from the index. */
  ghost predicate Halfway(n: Naming, db: Db, plan: seq<Work>, current: set<Source>) {
    && Proper(n, db) && Building(db, Reingested(plan, current))
    && forall r <- db.papers :: db.papers[r].source in SourcesOf(plan)
  }

  /** The papers after some of the batches, in order. */
  ghost predicate Gave(n: Naming, before: map<RowId, Paper>, after: map<RowId, Paper>, batches: seq<seq<Paper>>,
                       some: int) {
    0 <= some <= |batches| && after == UpsertAll(n, before, batches[..some])
  }

  lemma GaveNothing(n: Naming, papers: map<RowId, Paper>, batches: seq<seq<Paper>>)
    ensures Gave(n, papers, papers, batches, 0)
  {
  }

  lemma GaveEverything(n: Naming, before: map<RowId, Paper>, after: map<RowId, Paper>, batches: seq<seq<Paper>>)
    ensures Gave(n, before, after, batches, |batches|) <==> after == UpsertAll(n, before, batches)
  {
    assert batches[..|batches|] == batches;
  }

  lemma GaveFirst(n: Naming, before: map<RowId, Paper>, after: map<RowId, Paper>, a: seq<seq<Paper>>,
                  b: seq<seq<Paper>>, some: int)
    requires Gave(n, before, after, a, some)
    ensures Gave(n, before, after, a + b, some)
  {
    assert (a + b)[..some] == a[..some];
  }

  lemma GaveSecond(n: Naming, before: map<RowId, Paper>, middle: map<RowId, Paper>, after: map<RowId, Paper>,
                   a: seq<seq<Paper>>, b: seq<seq<Paper>>, some: int)
    requires Gave(n, before, middle, a, |a|) && Gave(n, middle, after, b, some)
    ensures Gave(n, before, after, a + b, |a| + some)
  {
    GaveEverything(n, before, middle, a);
    assert (a + b)[..|a| + some] == a + b[..some];
    UpsertAllInTwo(n, before, a, b[..some]);
  }

  lemma {:induction false} AllBatchesBegin(plan: seq<Work>, current: set<Source>, i: nat)
    requires i <= |plan|
    ensures AllBatches(plan[..i], current) <= AllBatches(plan, current)
  {
    if i == |plan| {
      assert plan[..i] == plan;
    } else {
      var m := |plan| - 1;
      assert plan[..m][..i] == plan[..i];
      AllBatchesBegin(plan[..m], current, i);
    }
  }

  lemma GaveMore(n: Naming, before: map<RowId, Paper>, after: map<RowId, Paper>, batches: seq<seq<Paper>>,
                 all: seq<seq<Paper>>, some: int)
    requires Gave(n, before, after, batches, some) && batches <= all
    ensures Gave(n, before, after, all, some)
  {
    assert all[..some] == batches[..some];
  }

  /** The sources before the i-th have delivered everything. */
  ghost predicate Ran(n: Naming, before: map<RowId, Paper>, after: map<RowId, Paper>, plan: seq<Work>,
                      current: set<Source>, i: nat, commits: nat)
    requires i <= |plan|
  {
    var batches := AllBatches(plan[..i], current);
    commits == |batches| && Gave(n, before, after, batches, commits)
  }

  lemma AllBatchesStep(plan: seq<Work>, current: set<Source>, i: nat)
    requires i < |plan|
    ensures AllBatches(plan[..i + 1], current) == AllBatches(plan[..i], current) + BatchesOf(plan[i], current)
  {
    assert plan[..i + 1][..i] == plan[..i];
  }

  /** Some of what source i delivers, after everything the sources before it deliver. */
  lemma DiedInPlan(n: Naming, before: map<RowId, Paper>, middle: map<RowId, Paper>, after: map<RowId, Paper>,
                   plan: seq<Work>, current: set<Source>, i: nat, done: nat, commits: int)
    requires i < |plan| && Ran(n, before, middle, plan, current, i, done)
    requires Gave(n, middle, after, BatchesOf(plan[i], current), commits - done)
    ensures Gave(n, before, after, AllBatches(plan, current), commits)
  {
    AllBatchesStep(plan, current, i);
    GaveSecond(n, before, middle, after, AllBatches(plan[..i], current), BatchesOf(plan[i], current), commits - done);
    AllBatchesBegin(plan, current, i + 1);
    GaveMore(n, before, after, AllBatches(plan[..i + 1], current), AllBatches(plan, current), commits);
  }

  /** All that source i delivers. */
  lemma RanOn(n: Naming, before: map<RowId, Paper>, middle: map<RowId, Paper>, after: map<RowId, Paper>,
              plan: seq<Work>, current: set<Source>, i: nat, done: nat, commits: nat)
    requires i < |plan| && Ran(n, before, middle, plan, current, i, done)
    requires commits == done + |BatchesOf(plan[i], current)|
    requires Gave(n, middle, after, BatchesOf(plan[i], current), commits - done)
    ensures Ran(n, before, after, plan, current, i + 1, commits)
  {
    AllBatchesStep(plan, current, i);
    GaveSecond(n, before, middle, after, AllBatches(plan[..i], current), BatchesOf(plan[i], current), commits - done);
  }

  lemma FitsSoFar(plan: seq<Work>, current: set<Source>, i: nat)
    requires i < |plan| && FeedsFit(plan[..i], current) && (plan[i].source in current ==> FeedOk(plan[i]))
    ensures FeedsFit(plan[..i + 1], current)
  {
    assert plan[..i + 1] == plan[..i] + [plan[i]];
  }

  lemma RanStarts(n: Naming, papers: map<RowId, Paper>, plan: seq<Work>, current: set<Source>)
    ensures Ran(n, papers, papers, plan, current, 0, 0)
  {
  }

  lemma RanOut(n: Naming, before: map<RowId, Paper>, after: map<RowId, Paper>, plan: seq<Work>, current: set<Source>,
               commits: nat)
    requires Ran(n, before, after, plan, current, |plan|, commits)
    ensures after == UpsertAll(n, before, AllBatches(plan, current))
    ensures Gave(n, before, after, AllBatches(plan, current), commits)
  {
    assert plan[..|plan|] == plan;
    GaveEverything(n, before, after, AllBatches(plan, current));
  }

  // ---------------------------------------------------------------- sources apart

  ghost predicate Owned(n: Naming, papers: seq<Paper>, sources: set<Source>) {
    forall p <- papers :: n.owner(p.id) in sources
  }

  lemma {:induction false} FlatOwned(n: Naming, batches: seq<seq<Paper>>, source: Source)
    requires forall batch <- batches :: BatchOf(n, batch, source)
    ensures Owned(n, Flat(batches), {source})
  {
    if batches != [] {
      var k := |batches| - 1;
      assert batches[k] in batches && forall batch <- batches[..k] :: batch in batches;
      FlatOwned(n, batches[..k], source);
    }
  }

  lemma {:induction false} PlanOwned(n: Naming, plan: seq<Work>, current: set<Source>)
    requires forall w <- plan :: WorkOk(n, w)
    ensures Owned(n, Flat(AllBatches(plan, current)), SourcesOf(plan))
  {
    if plan != [] {
      var m := |plan| - 1;
      assert plan[m] in plan && forall w <- plan[..m] :: w in plan;
      PlanOwned(n, plan[..m], current);
      FlatOwned(n, BatchesOf(plan[m], current), plan[m].source);
      FlatInTwo(AllBatches(plan[..m], current), BatchesOf(plan[m], current));
    }
  }

  /** One profile per source, every batch under identifiers of its source. */
  ghost predicate Apart(n: Naming, plan: seq<Work>) {
    && (forall w <- plan :: WorkOk(n, w))
    && (forall i, j :: 0 <= i < j < |plan| ==> plan[i].source != plan[j].source)
  }

  lemma ApartBefore(n: Naming, plan: seq<Work>)
    requires plan != [] && Apart(n, plan)
    ensures Apart(n, plan[..|plan| - 1]) && WorkOk(n, plan[|plan| - 1])
  {
    assert plan[|plan| - 1] in plan && forall w <- plan[..|plan| - 1] :: w in plan;
  }

  /** Different sources deliver different identifiers. */
  lemma LastIsApart(n: Naming, plan: seq<Work>, current: set<Source>, some: nat)
    requires plan != [] && Apart(n, plan)
    requires some <= |BatchesOf(plan[|plan| - 1], current)|
    ensures var m := |plan| - 1;
            forall p, q ::
              p in Flat(AllBatches(plan[..m], current)) && q in Flat(BatchesOf(plan[m], current)[..some]) ==>
                p.id != q.id
  {
    var m := |plan| - 1;
    assert plan[m] in plan && forall w <- plan[..m] :: w in plan;
    PlanOwned(n, plan[..m], current);
    assert forall batch <- BatchesOf(plan[m], current)[..some] :: batch in BatchesOf(plan[m], current);
    FlatOwned(n, BatchesOf(plan[m], current)[..some], plan[m].source);
    assert plan[m].source !in SourcesOf(plan[..m]);
  }

  /** A source whose batches are settled may deliver them again from anywhere. */
  lemma SettledFrom(papers: map<RowId, Paper>, batches: seq<seq<Paper>>, f: nat)
    requires f <= |batches| && Settled(papers, Flat(batches))
    ensures Settled(papers, Flat(batches[f..]))
  {
    assert batches == batches[..f] + batches[f..];
    FlatInTwo(batches[..f], batches[f..]);
    SettledSuffix(papers, Flat(batches[..f]), Flat(batches[f..]));
  }

  /**
   * The last source's batches so far, after everything of the others, are settled on their own, and so are the others'.
   */
  lemma SettledApart(n: Naming, plan: seq<Work>, current: set<Source>, some: nat, papers: map<RowId, Paper>)
    requires plan != [] && Apart(n, plan) && some <= |BatchesOf(plan[|plan| - 1], current)|
    requires var m := |plan| - 1;
             Settled(papers, Flat(AllBatches(plan[..m], current) + BatchesOf(plan[m], current)[..some]))
    ensures var m := |plan| - 1;
            Settled(papers, Flat(AllBatches(plan[..m], current)))
              && Settled(papers, Flat(BatchesOf(plan[m], current)[..some]))
  {
    var m := |plan| - 1;
    var before, own := AllBatches(plan[..m], current), BatchesOf(plan[m], current)[..some];
    FlatInTwo(before, own);
    SettledSuffix(papers, Flat(before), Flat(own));
    LastIsApart(n, plan, current, some);
    SettledPrefix(papers, Flat(before), Flat(own));
  }

  // ---------------------------------------------------------------- what a run gathers

  /** What a source gives: its catch-up, and before it its baseline unless it is kept as it is. */
  function Given(w: Work, current: set<Source>): seq<Paper> {
    if w.source in current then Flat(w.catchUp) else Flat(w.ingest + w.catchUp)
  }

  /** No later paper has the identifier of the i-th. */
  ghost predicate IsLatest(given: seq<Paper>, i: int) {
    0 <= i < |given| && forall j :: i < j < |given| ==> given[j].id != given[i].id
  }

  /** The latest version of every paper given has a row. */
  ghost predicate Holds(papers: map<RowId, Paper>, given: seq<Paper>) {
    forall i :: IsLatest(given, i) ==> exists r :: r in papers && papers[r] == given[i]
  }

  /** Some source gives a paper under this identifier. */
  ghost predicate Named(plan: seq<Work>, current: set<Source>, id: PaperId) {
    exists w, p :: w in plan && p in Given(w, current) && p.id == id
  }

  /**
   * The table after a run, in terms of its plan: each source's papers in their latest versions, one row each, and
   * besides them exactly the rows there were before, of the sources that are kept unless the run goes on from an
   * earlier one.
   */
  ghost predicate Provisioned(before: map<RowId, Paper>, after: map<RowId, Paper>, plan: seq<Work>,
                              current: set<Source>, resumed: bool)
  {
    && UniqueIds(after) && (forall w <- plan :: Holds(after, Given(w, current)))
    && (forall r <- after :: Named(plan, current, after[r].id) || (r in before && after[r] == before[r]))
    && (forall r <- after :: Named(plan, current, after[r].id) || resumed || after[r].source in current)
    && (forall r <- before :: (resumed || before[r].source in current) && !Named(plan, current, before[r].id) ==>
          r in after && after[r] == before[r])
  }

  lemma {:induction false} LatestIsLast(given: seq<Paper>, i: nat)
    requires IsLatest(given, i)
    ensures LastOf(given, given[i]) == given[i]
  {
    var k := |given| - 1;
    if i < k {
      assert given[k].id != given[i].id && given[..k][i] == given[i];
      LatestIsLast(given[..k], i);
    }
  }

  lemma SettledHolds(papers: map<RowId, Paper>, given: seq<Paper>)
    requires Settled(papers, given)
    ensures Holds(papers, given)
  {
    forall i | IsLatest(given, i) ensures exists r :: r in papers && papers[r] == given[i] {
      var r := RowOf(papers, given[i].id).value;
      LatestIsLast(given, i);
      LastOfNamed(given, papers[r], given[i]);
      assert papers[r] == given[i];
    }
  }

  lemma {:induction false} EachSettled(n: Naming, plan: seq<Work>, current: set<Source>, papers: map<RowId, Paper>)
    requires Apart(n, plan) && Settled(papers, Flat(AllBatches(plan, current)))
    ensures forall w <- plan :: Settled(papers, Flat(BatchesOf(w, current)))
  {
    if plan != [] {
      var m := |plan| - 1;
      var own := BatchesOf(plan[m], current);
      ApartBefore(n, plan);
      assert own[..|own|] == own;
      SettledApart(n, plan, current, |own|, papers);
      EachSettled(n, plan[..m], current, papers);
      assert plan == plan[..m] + [plan[m]];
    }
  }

  lemma GivenIsBatches(w: Work, current: set<Source>)
    ensures Given(w, current) == Flat(BatchesOf(w, current))
  {
    if w.source in current {
      assert [] + w.catchUp == w.catchUp;
    }
  }

  lemma {:induction false} NamedInBatches(plan: seq<Work>, current: set<Source>, id: PaperId)
    ensures Named(plan, current, id) <==> Names(Flat(AllBatches(plan, current)), id)
  {
    if plan != [] {
      var m := |plan| - 1;
      NamedInBatches(plan[..m], current, id);
      GivenIsBatches(plan[m], current);
      FlatInTwo(AllBatches(plan[..m], current), BatchesOf(plan[m], current));
      assert plan == plan[..m] + [plan[m]];
      if Named(plan[..m], current, id) {
        var w, p :| w in plan[..m] && p in Given(w, current) && p.id == id;
        assert w in plan;
      }
    }
  }

  lemma GatheredIsProvisioned(n: Naming, before: map<RowId, Paper>, plan: seq<Work>, current: set<Source>,
                              resumed: bool)
    requires FreshRows(n) && UniqueIds(before) && PlanOk(n, plan, current)
    ensures Provisioned(before, Gathered(n, before, plan, current, resumed), plan, current, resumed)
  {
    var start, batches := Begins(before, current, resumed), AllBatches(plan, current);
    var after := Gathered(n, before, plan, current, resumed);
    UpsertAllSettles(n, start, batches);
    EachSettled(n, plan, current, after);
    forall w <- plan ensures Holds(after, Given(w, current)) {
      GivenIsBatches(w, current);
      SettledHolds(after, Given(w, current));
    }
    UpsertAllOthers(n, start, batches);
    forall id ensures Named(plan, current, id) <==> Names(Flat(batches), id) {
      NamedInBatches(plan, current, id);
    }
  }

  lemma {:induction false} CatchUpsAreAll(feeds: seq<Work>, current: set<Source>)
    requires SourcesOf(feeds) <= current
    ensures AllBatches(feeds, current) == CatchUps(feeds)
  {
    if feeds != [] {
      var m := |feeds| - 1;
      assert feeds[m] in feeds && forall w <- feeds[..m] :: w in feeds;
      CatchUpsAreAll(feeds[..m], current);
      assert [] + feeds[m].catchUp == feeds[m].catchUp;
    }
  }

  /** The table after an in-place refresh of feeds that are apart. */
  ghost predicate Refreshed(n: Naming, before: map<RowId, Paper>, after: map<RowId, Paper>, feeds: seq<Work>) {
    Apart(n, feeds) ==> Provisioned(before, after, feeds, SourcesOf(feeds), true)
  }

  /** A refresh takes every source as it is and adds its catch-up. */
  lemma RefreshedIsProvisioned(n: Naming, before: map<RowId, Paper>, feeds: seq<Work>)
    requires FreshRows(n) && UniqueIds(before)
    ensures Refreshed(n, before, UpsertAll(n, before, CatchUps(feeds)), feeds)
  {
    if Apart(n, feeds) {
      CatchUpsAreAll(feeds, SourcesOf(feeds));
      GatheredIsProvisioned(n, before, feeds, SourcesOf(feeds), true);
    }
  }
}
