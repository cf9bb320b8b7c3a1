/**
 * Resuming a provisioning run that died: every source goes on from its own checkpoint, which may lag behind its
 * commits.
 */
module CorpusResume {
  import opened Wrappers
  import opened CorpusIndex
  import opened CorpusReplay
  import opened CorpusPlan

  /** How many of the batches of source i had been committed when a run died after some commits. */
  function Committed(plan: seq<Work>, current: set<Source>, i: nat, commits: nat): (d: nat)
    requires i < |plan|
    ensures d <= |BatchesOf(plan[i], current)|
  {
    var before, own := |AllBatches(plan[..i], current)|, |BatchesOf(plan[i], current)|;
    if commits <= before then 0 else if commits - before < own then commits - before else own
  }

  /** One source's deliveries go on from a point no later than some number of its batches. */
  predicate GoesOn(w: Work, again: Work, current: set<Source>, done: nat) {
    && again.source == w.source
    && exists f :: 0 <= f <= done <= |BatchesOf(w, current)| && BatchesOf(again, current) == BatchesOf(w, current)[f..]
  }

  /** Each source goes on from a checkpoint that is no later than its last commit. */
  predicate Resumes(plan: seq<Work>, again: seq<Work>, current: set<Source>, commits: nat) {
    |again| == |plan| && forall i :: 0 <= i < |plan| ==>
      GoesOn(plan[i], again[i], current, Committed(plan, current, i, commits))
  }

  /** Sources that had delivered everything deliver some of it again. */
  lemma {:induction false} AgainIsSettled(n: Naming, plan: seq<Work>, again: seq<Work>, current: set<Source>,
                                          papers: map<RowId, Paper>)
    requires Apart(n, plan) && |again| == |plan|
    requires forall i :: 0 <= i < |plan| ==> GoesOn(plan[i], again[i], current, |BatchesOf(plan[i], current)|)
    requires Settled(papers, Flat(AllBatches(plan, current)))
    ensures Settled(papers, Flat(AllBatches(again, current)))
  {
    if plan != [] {
      var m := |plan| - 1;
      var own := BatchesOf(plan[m], current);
      ApartBefore(n, plan);
      assert own[..|own|] == own;
      SettledApart(n, plan, current, |own|, papers);
      AgainIsSettled(n, plan[..m], again[..m], current, papers);
      assert GoesOn(plan[m], again[m], current, |own|);
      var f :| 0 <= f <= |own| && BatchesOf(again[m], current) == own[f..];
      SettledFrom(papers, own, f);
      FlatInTwo(AllBatches(again[..m], current), BatchesOf(again[m], current));
      SettledUnion(papers, Flat(AllBatches(again[..m], current)), Flat(BatchesOf(again[m], current)));
    }
  }

  lemma CutBeforeLast(plan: seq<Work>, current: set<Source>, commits: nat)
    requires plan != [] && commits <= |AllBatches(plan[..|plan| - 1], current)|
    ensures commits <= |AllBatches(plan, current)|
    ensures AllBatches(plan, current)[..commits] == AllBatches(plan[..|plan| - 1], current)[..commits]
  {
  }

  /** The last source had not been reached: it delivers everything. */
  lemma NotReached(plan: seq<Work>, again: seq<Work>, current: set<Source>, commits: nat)
    requires plan != [] && Resumes(plan, again, current, commits)
    requires commits <= |AllBatches(plan[..|plan| - 1], current)|
    ensures Resumes(plan[..|plan| - 1], again[..|plan| - 1], current, commits)
    ensures BatchesOf(again[|plan| - 1], current) == BatchesOf(plan[|plan| - 1], current)
  {
    var m := |plan| - 1;
    forall i | 0 <= i < m
      ensures GoesOn(plan[..m][i], again[..m][i], current, Committed(plan[..m], current, i, commits))
    {
      assert plan[..m][..i] == plan[..i];
    }
    assert GoesOn(plan[m], again[m], current, Committed(plan, current, m, commits));
  }

  /** The sources before one that had been reached had delivered everything. */
  lemma AllBeforeDone(plan: seq<Work>, again: seq<Work>, current: set<Source>, commits: nat, i: nat)
    requires Resumes(plan, again, current, commits) && i < |plan| - 1
    requires commits >= |AllBatches(plan[..|plan| - 1], current)|
    ensures GoesOn(plan[i], again[i], current, |BatchesOf(plan[i], current)|)
  {
    var m := |plan| - 1;
    assert GoesOn(plan[i], again[i], current, Committed(plan, current, i, commits));
    AllBatchesBegin(plan[..m], current, i + 1);
    assert plan[..m][..i + 1] == plan[..i + 1] && plan[..i + 1][..i] == plan[..i];
  }

  /** The run died within the last source, or behind it. */
  lemma ReachedLast(n: Naming, papers: map<RowId, Paper>, plan: seq<Work>, again: seq<Work>, current: set<Source>,
                    commits: nat)
    requires FreshRows(n) && UniqueIds(papers) && plan != [] && Apart(n, plan) && Resumes(plan, again, current, commits)
    requires |AllBatches(plan[..|plan| - 1], current)| <= commits <= |AllBatches(plan, current)|
    ensures UpsertAll(n, UpsertAll(n, papers, AllBatches(plan, current)[..commits]), AllBatches(again, current)) ==
            UpsertAll(n, papers, AllBatches(plan, current))
  {
    var m := |plan| - 1;
    var before, own := AllBatches(plan[..m], current), BatchesOf(plan[m], current);
    var done := commits - |before|;
    var died := UpsertAll(n, papers, before + own[..done]);
    assert AllBatches(plan, current)[..commits] == before + own[..done];
    UpsertAllSettles(n, papers, before + own[..done]);
    SettledApart(n, plan, current, done, died);
    ApartBefore(n, plan);
    forall i | 0 <= i < m ensures GoesOn(plan[..m][i], again[..m][i], current, |BatchesOf(plan[..m][i], current)|) {
      AllBeforeDone(plan, again, current, commits, i);
    }
    AgainIsSettled(n, plan[..m], again[..m], current, died);
    SettledIsIdle(n, died, AllBatches(again[..m], current));
    assert GoesOn(plan[m], again[m], current, Committed(plan, current, m, commits));
    var f :| 0 <= f <= done && BatchesOf(again[m], current) == own[f..];
    LastGoesOn(n, papers, died, before, own, f, done);
    UpsertAllInTwo(n, died, AllBatches(again[..m], current), own[f..]);
  }

  lemma LastGoesOn(n: Naming, papers: map<RowId, Paper>, died: map<RowId, Paper>, before: seq<seq<Paper>>,
                   own: seq<seq<Paper>>, f: nat, done: nat)
    requires f <= done <= |own| && died == UpsertAll(n, papers, before + own[..done])
    requires Settled(died, Flat(own[..done]))
    ensures UpsertAll(n, died, own[f..]) == UpsertAll(n, papers, before + own)
  {
    assert own[f..] == own[..done][f..] + own[done..] && before + own == (before + own[..done]) + own[done..];
    SettledFrom(died, own[..done], f);
    SettledIsIdle(n, died, own[..done][f..]);
    UpsertAllInTwo(n, died, own[..done][f..], own[done..]);
    UpsertAllInTwo(n, papers, before + own[..done], own[done..]);
  }

  /**
   * Wherever a run died, and however far each source's checkpoint lags behind its commits: the run that resumes it ends
   * with the papers that the first would have ended with.
   */
  lemma {:induction false} ResumedEndsAlike(n: Naming, papers: map<RowId, Paper>, plan: seq<Work>, again: seq<Work>,
                                            current: set<Source>, commits: nat)
    requires FreshRows(n) && UniqueIds(papers) && Apart(n, plan) && Resumes(plan, again, current, commits)
    requires commits <= |AllBatches(plan, current)|
    ensures UpsertAll(n, UpsertAll(n, papers, AllBatches(plan, current)[..commits]), AllBatches(again, current)) ==
            UpsertAll(n, papers, AllBatches(plan, current))
  {
    if plan == [] {
    } else if commits <= |AllBatches(plan[..|plan| - 1], current)| {
      var m := |plan| - 1;
      CutBeforeLast(plan, current, commits);
      var died := UpsertAll(n, papers, AllBatches(plan, current)[..commits]);
      NotReached(plan, again, current, commits);
      ApartBefore(n, plan);
      ResumedEndsAlike(n, papers, plan[..m], again[..m], current, commits);
      UpsertAllInTwo(n, died, AllBatches(again[..m], current), BatchesOf(again[m], current));
      UpsertAllInTwo(n, papers, AllBatches(plan[..m], current), BatchesOf(plan[m], current));
    } else {
      ReachedLast(n, papers, plan, again, current, commits);
    }
  }

  lemma SourcesWithin(plan: seq<Work>, again: seq<Work>)
    requires |again| == |plan| && forall i :: 0 <= i < |plan| ==> again[i].source == plan[i].source
    ensures SourcesOf(again) <= SourcesOf(plan)
  {
    forall w <- again ensures w.source in SourcesOf(plan) {
      var i :| 0 <= i < |again| && again[i] == w;
      assert plan[i] in plan;
    }
  }

  lemma SameOrder(plan: seq<Work>, again: seq<Work>, current: set<Source>, commits: nat)
    requires Resumes(plan, again, current, commits)
    ensures |again| == |plan| && forall i :: 0 <= i < |plan| ==> again[i].source == plan[i].source
  {
    forall i | 0 <= i < |plan| ensures again[i].source == plan[i].source {
      assert GoesOn(plan[i], again[i], current, Committed(plan, current, i, commits));
    }
  }

  /**
   * What a run that stopped leaves is where a run that goes on from the checkpoints may start, and the papers that one
   * gathers are those the first would have gathered undisturbed.
   */
  lemma ResumedGathers(n: Naming, papers: map<RowId, Paper>, db: Db, plan: seq<Work>, again: seq<Work>,
                       current: set<Source>, resumed: bool, commits: nat)
    requires FreshRows(n) && UniqueIds(papers) && PlanOk(n, plan, current) && Halfway(n, db, plan, current)
    requires Gave(n, Begins(papers, current, resumed), db.papers, AllBatches(plan, current), commits)
    requires Resumes(plan, again, current, commits) && forall w <- again :: WorkOk(n, w)
    ensures PlanOk(n, again, current) && Halfway(n, db, again, current)
    ensures Gathered(n, db.papers, again, current, true) == Gathered(n, papers, plan, current, resumed)
  {
    SameOrder(plan, again, current, commits);
    SourcesWithin(plan, again);
    SourcesWithin(again, plan);
    ResumedEndsAlike(n, Begins(papers, current, resumed), plan, again, current, commits);
  }
}
