/** The corpus database as an object, and the provisioning and refresh runs that keep its index in step by hand. */
module CorpusStore {
  import opened Wrappers
  import opened CorpusCounts
  import opened CorpusIndex
  import opened CorpusPlan
  import opened CorpusReplay

  datatype Outcome = Completed(records: nat) | Stopped | Refused | EmptyCorpus

  /** How the delivery of a feed ended. */
  datatype Feed = Delivered | Died | BadBatch

  class Corpus {
    const naming: Naming
    var papers: map<RowId, Paper>
    var fts: map<RowId, Entry>
    var sources: map<Source, nat>
    var primaryCounts: Table
    var categoryCounts: Table

    ghost function View(): Db
      reads this
    {
      Db(papers, fts)
    }

    ghost predicate Valid()
      reads this
    {
      FreshRows(naming) && Proper(naming, View())
    }

    /**
     * The sources a retained database may hold: the recorded ones, or arXiv alone in one from before they were
     * recorded.
     */
    function Held(): set<Source>
      reads this
    {
      if sources == map[] && papers != map[] then {"arxiv"} else sources.Keys
    }

    ghost predicate Covered()
      reads this
    {
      forall r <- papers ::
        if sources == map[] then papers[r].source == "arxiv" else papers[r].source in sources
    }

    // -------------------------------------------------------------- statements

    method FindRow(id: PaperId) returns (row: Option<RowId>)
      requires UniqueIds(papers)
      ensures row == RowOf(papers, id)
    {
      if r :| r in papers && papers[r].id == id {
        RowOfUnique(papers, r);
        row := Some(r);
      } else {
        row := None;
      }
    }

    method UpsertPapers(batch: seq<Paper>, ghost source: Source)
      requires Valid() && BatchOf(naming, batch, source)
      modifies this`papers
      ensures Valid() && View() == Upsert(naming, old(View()), batch)
    {
      for i := 0 to |batch|
        invariant Valid() && View() == Upsert(naming, old(View()), batch[..i])
      {
        var p := batch[i];
        assert p in batch && batch[..i + 1][..i] == batch[..i];
        UpsertOneProper(naming, View(), p);
        var row := FindRow(p.id);
        match row {
          case Some(r) => papers := papers[r := p];
          case None => papers := papers[naming.freshRow(papers.Keys) := p];
        }
      }
      assert batch[..|batch|] == batch;
    }

    method DropSource(source: Source)
      modifies this`papers, this`fts, this`sources
      ensures View() == CorpusIndex.DropSource(old(View()), source) && sources == old(sources) - {source}
    {
      var rows := RowsOfSource(papers, source);
      fts := fts - rows;
      papers := papers - rows;
      sources := sources - {source};
    }

    method IndexSource(source: Source) returns (accepted: bool)
      modifies this`fts
      ensures accepted <==> CorpusIndex.IndexSource(old(View()), source).Some?
      ensures accepted <==> forall r <- papers :: papers[r].source == source ==> r !in old(fts)
      ensures accepted ==> View() == CorpusIndex.IndexSource(old(View()), source).value
    {
      var rest := RowsOfSource(papers, source);
      var added: map<RowId, Entry> := map[];
      while rest != {}
        invariant rest <= RowsOfSource(papers, source)
        invariant added == EntriesOf(papers, RowsOfSource(papers, source) - rest)
        invariant added.Keys !! fts.Keys
        decreases |rest|
      {
        var r :| r in rest;
        if r in fts {
          return false;
        }
        added := added[r := Columns(papers[r])];
        rest := rest - {r};
      }
      fts := fts + added;
      accepted := true;
    }

    /** The rows to refresh, fetched before anything is deleted. */
    method FetchRows(ids: seq<PaperId>) returns (rows: seq<RowId>)
      requires UniqueIds(papers)
      ensures rows == RowsNamed(papers, ids) && forall r <- rows :: r in papers
    {
      rows := [];
      for i := 0 to |ids|
        invariant rows == RowsNamed(papers, ids[..i]) && forall r <- rows :: r in papers
      {
        assert ids[..i + 1][..i] == ids[..i];
        var row := FindRow(ids[i]);
        rows := rows + if row.Some? then [row.value] else [];
      }
      assert ids[..|ids|] == ids;
    }

    method DeleteEntries(rows: seq<RowId>)
      modifies this`fts
      ensures fts == old(fts) - AsSet(rows)
    {
      for i := 0 to |rows|
        invariant fts == old(fts) - AsSet(rows[..i])
      {
        fts := fts - {rows[i]};
      }
      assert rows[..|rows|] == rows;
    }

    /** Inserts one entry per row; a row that already has an entry ends the statement with a constraint error. */
    method InsertEntries(rows: seq<RowId>) returns (accepted: bool)
      requires (forall r <- rows :: r in papers) && fts.Keys !! AsSet(rows)
      modifies this`fts
      ensures accepted <==> NoRepeats(rows)
      ensures accepted ==> fts == old(fts) + EntriesOf(papers, AsSet(rows))
    {
      for i := 0 to |rows|
        invariant NoRepeats(rows[..i])
        invariant fts == old(fts) + EntriesOf(papers, AsSet(rows[..i]))
      {
        if rows[i] in fts {
          assert rows[i] in rows && rows[i] in rows[..i];
          return false;
        }
        EntriesGrow(papers, old(fts), rows, i);
        fts := fts[rows[i] := Columns(papers[rows[i]])];
      }
      assert rows[..|rows|] == rows;
      accepted := true;
    }

    method IndexPapers(ids: seq<PaperId>) returns (accepted: bool)
      requires UniqueIds(papers)
      modifies this`fts
      ensures accepted <==> CorpusIndex.IndexPapers(old(View()), ids).Some?
      ensures accepted ==> View() == CorpusIndex.IndexPapers(old(View()), ids).value
    {
      var rows := FetchRows(ids);
      DeleteEntries(rows);
      accepted := InsertEntries(rows);
    }

    // -------------------------------------------------------------- counting

    /** Counts records, primary categories and category memberships per source, in one pass. */
    method Census() returns (records: map<Source, nat>, primaries: Table, categories: Table)
      ensures forall s :: Counted(records, s) == CountOf(papers, s)
      ensures CountsPrimaries(papers, papers.Keys, primaries) && CountsListings(papers, papers.Keys, categories)
    {
      records, primaries, categories := map[], map[], map[];
      var done: set<RowId> := {};
      while done != papers.Keys
        invariant done <= papers.Keys
        invariant forall s :: Counted(records, s) == CountIn(papers, done, s)
        invariant CountsPrimaries(papers, done, primaries) && CountsListings(papers, done, categories)
        decreases |papers.Keys - done|
      {
        var r :| r in papers.Keys - done;
        records, primaries, categories := Count(r, records, primaries, categories, done);
        done := done + {r};
      }
      forall s ensures Counted(records, s) == CountOf(papers, s) {
        assert RowsOfSource(papers, s) * done == RowsOfSource(papers, s);
      }
    }

    /** One row of the census. */
    method Count(r: RowId, records0: map<Source, nat>, primaries0: Table, categories0: Table, ghost done: set<RowId>)
      returns (records: map<Source, nat>, primaries: Table, categories: Table)
      requires done <= papers.Keys && r in papers && r !in done
      requires forall s :: Counted(records0, s) == CountIn(papers, done, s)
      requires CountsPrimaries(papers, done, primaries0) && CountsListings(papers, done, categories0)
      ensures forall s :: Counted(records, s) == CountIn(papers, done + {r}, s)
      ensures CountsPrimaries(papers, done + {r}, primaries) && CountsListings(papers, done + {r}, categories)
    {
      var p := papers[r];
      TallyGrows(papers, done, r, records0);
      records := records0[p.source := Counted(records0, p.source) + 1];
      primaries := AddPrimary(primaries0, p.source, p.primary);
      PrimariesGrow(papers, done, r, primaries0, primaries);
      categories := AddListings(categories0, p.source, p.categories);
      ListingsGrow(papers, done, r, categories0, categories);
    }

    /** The recorded counts added up, or a scan in a corpus from before they were recorded. */
    method TotalRecords() returns (total: nat)
      ensures total == if sources == map[] then |papers| else SumOf(sources)
    {
      if sources == map[] {
        return |papers|;
      }
      total := AddUp(sources);
    }

    // -------------------------------------------------------------- runs

    /** What holds at every commit point of a run, for the sources still waiting and the sources allowed. */
    ghost predicate InStep(pending: set<Source>, allowed: set<Source>)
      reads this
    {
      Valid() && Building(View(), pending) && forall r <- papers :: papers[r].source in allowed
    }

    /** One batch of an adapter, indexed record by record when its source is already indexed. */
    method Deliver(batch: seq<Paper>, source: Source, indexed: bool, ghost pending: set<Source>,
                   ghost allowed: set<Source>)
      returns (accepted: bool)
      requires InStep(pending, allowed) && BatchOf(naming, batch, source) && source in allowed
               && (indexed <==> source !in pending)
      modifies this`papers, this`fts
      ensures accepted <==> !indexed || NoRepeats(Ids(batch))
      ensures accepted ==> InStep(pending, allowed) && papers == Upsert(naming, Db(old(papers), map[]), batch).papers
    {
      UpsertIgnoresIndex(naming, papers, fts, batch);
      UpsertRewrites(naming, View(), batch, source);
      if indexed {
        UpsertThenIndex(naming, View(), batch, source, pending);
        UpsertPapers(batch, source);
        if batch == [] {
          return true;
        }
        accepted := IndexPapers(Ids(batch));
      } else {
        UpsertWaiting(naming, View(), batch, source, pending);
        UpsertPapers(batch, source);
        accepted := true;
      }
    }

    /** The batches of one feed, each committed on its own; the process may die at any of the commits. */
    method DeliverAll(batches: seq<seq<Paper>>, source: Source, indexed: bool, death: Option<nat>, commits0: nat,
                      ghost pending: set<Source>, ghost allowed: set<Source>)
      returns (feed: Feed, commits: nat)
      requires InStep(pending, allowed) && (forall batch <- batches :: BatchOf(naming, batch, source))
      requires source in allowed && (indexed <==> source !in pending)
      modifies this`papers, this`fts
      ensures feed != BadBatch ==>
              InStep(pending, allowed) && Gave(naming, old(papers), papers, batches, commits - commits0)
      ensures feed == Died ==> death == Some(commits)
      ensures feed == BadBatch ==> indexed && !Distinct(batches)
      ensures feed == Delivered && indexed ==> Distinct(batches)
      ensures feed == Delivered ==> commits == commits0 + |batches|
    {
      commits := commits0;
      for i := 0 to |batches|
        invariant InStep(pending, allowed) && commits == commits0 + i
        invariant indexed ==> forall k | 0 <= k < i :: NoRepeats(Ids(batches[k]))
        invariant Gave(naming, old(papers), papers, batches, i)
      {
        assert batches[i] in batches && batches[..i + 1][..i] == batches[..i];
        if death == Some(commits) {
          return Died, commits;
        }
        var accepted := Deliver(batches[i], source, indexed, pending, allowed);
        if !accepted {
          return BadBatch, commits;
        }
        commits := commits + 1;
      }
      feed := Delivered;
    }

    /** What one source delivers: its baseline first when it is reingested, then its catch-up. */
    method DeliverWork(w: Work, current: set<Source>, death: Option<nat>, commits0: nat, ghost pending: set<Source>,
                       ghost allowed: set<Source>)
      returns (feed: Feed, commits: nat)
      requires InStep(pending, allowed) && WorkOk(naming, w)
      requires w.source in allowed && (w.source in current <==> w.source !in pending)
      modifies this`papers, this`fts
      ensures feed != BadBatch ==>
                InStep(pending, allowed) && Gave(naming, old(papers), papers, BatchesOf(w, current), commits - commits0)
      ensures feed == Died ==> death == Some(commits)
      ensures feed == BadBatch ==> w.source in current && !FeedOk(w)
      ensures feed == Delivered && w.source in current ==> FeedOk(w)
      ensures feed == Delivered ==> commits == commits0 + |BatchesOf(w, current)|
    {
      ghost var first := if w.source in current then [] else w.ingest;
      commits := commits0;
      GaveNothing(naming, papers, first);
      if w.source !in current {
        feed, commits := DeliverAll(w.ingest, w.source, false, death, commits, pending, allowed);
        if feed != Delivered {
          GaveFirst(naming, old(papers), papers, w.ingest, w.catchUp, commits - commits0);
          return feed, commits;
        }
      }
      ghost var middle := papers;
      feed, commits := DeliverAll(w.catchUp, w.source, w.source in current, death, commits, pending, allowed);
      if feed != BadBatch {
        GaveSecond(naming, old(papers), middle, papers, first, w.catchUp, commits - commits0 - |first|);
      }
    }

    /** Removes every held source that is not kept as it is. */
    method Prune(current: set<Source>)
      requires Valid() && Agrees(View()) && Covered()
      modifies this`papers, this`fts, this`sources
      ensures Valid() && Agrees(View()) && sources.Keys <= old(sources).Keys
      ensures papers == KeptRows(old(papers), current)
    {
      ghost var held := Held();
      assert papers == KeptRows(papers, current + (held - current));
      var rest := Held() - current;
      AgreesIsBuilt(View());
      while rest != {}
        invariant rest <= held - current
        invariant Valid() && Building(View(), {}) && sources.Keys <= old(sources).Keys
        invariant papers == KeptRows(old(papers), current + rest)
        decreases |rest|
      {
        var source :| source in rest;
        DropSourceKeeps(naming, View(), source, {});
        DropKept(old(papers), current, rest, source);
        DropSource(source);
        rest := rest - {source};
      }
      assert current + {} == current;
      AgreesIsBuilt(View());
    }

    /** The final per-source indexing: never refused, and afterwards nothing is waiting. */
    method IndexAll(plan: seq<Work>, current: set<Source>)
      requires InStep(Reingested(plan, current), SourcesOf(plan))
      requires forall i, j :: 0 <= i < j < |plan| ==> plan[i].source != plan[j].source
      modifies this`fts
      ensures InStep({}, SourcesOf(plan))
    {
      for i := 0 to |plan|
        invariant InStep(Reingested(plan[i..], current), SourcesOf(plan))
      {
        var source := plan[i].source;
        assert plan[i..] == [plan[i]] + plan[i + 1..];
        assert source !in SourcesOf(plan[i + 1..]);
        if source !in current {
          IndexSourceFinishes(View(), source, Reingested(plan[i..], current));
          assert Reingested(plan[i..], current) - {source} == Reingested(plan[i + 1..], current);
          var accepted := IndexSource(source);
        } else {
          assert Reingested(plan[i..], current) == Reingested(plan[i + 1..], current);
        }
      }
      assert Reingested(plan[|plan|..], current) == {};
    }

    /**
     * A provisioning run: prune, ingest, catch up, index, count. A fresh checkpoint starts from a seeded copy whose
     * index agrees; a resumed one starts wherever an earlier run died. Every run that completes leaves an index that
     * agrees with the table, only planned sources, and their exact record counts. One that dies at some commit has
     * delivered the batches before it, and resuming it with the same plan ends with the papers it would have ended with
     * undisturbed.
     */
    method Provision(plan: seq<Work>, current: set<Source>, resumed: bool, death: Option<nat>)
      returns (outcome: Outcome)
      requires Valid() && PlanOk(naming, plan, current)
      requires if resumed then Halfway(naming, View(), plan, current) else Agrees(View()) && Covered()
      modifies this
      ensures outcome.Completed? ==>
                && Valid() && Agrees(View()) && outcome.records == |papers| > 0 && Covered() && Tallied()
                && papers == Gathered(naming, old(papers), plan, current, resumed)
                && Provisioned(old(papers), papers, plan, current, resumed)
                && (forall r <- papers :: papers[r].source in SourcesOf(plan))
                && (forall w <- plan :: w.source in sources && sources[w.source] == CountOf(papers, w.source))
      ensures outcome == Stopped ==>
                && death.Some? && Halfway(naming, View(), plan, current)
                && Gave(naming, Begins(old(papers), current, resumed), papers, AllBatches(plan, current), death.value)
                && Gathered(naming, papers, plan, current, true) ==
                   Gathered(naming, old(papers), plan, current, resumed)
      ensures outcome == Refused ==> !FeedsFit(plan, current)
      ensures outcome.Completed? || outcome == EmptyCorpus ==> FeedsFit(plan, current)
      ensures outcome == EmptyCorpus ==> Gathered(naming, old(papers), plan, current, resumed) == map[]
      ensures death.None? ==>
              (outcome.Completed? <==>
               FeedsFit(plan, current) && Gathered(naming, old(papers), plan, current, resumed) != map[])
    {
      ghost var before := papers;
      if !resumed {
        Prune(current);
      }
      ghost var start := papers;
      var feed := RunAdapters(plan, current, death);
      if feed == Died {
        CutShortIsCaughtUp(naming, start, AllBatches(plan, current), death.value);
        return Stopped;
      }
      if feed == BadBatch {
        return Refused;
      }
      GatheredIsProvisioned(naming, before, plan, current, resumed);
      var total := Finish(plan, current);
      if total == 0 {
        return EmptyCorpus;
      }
      return Completed(total);
    }

    /** The index phase and the counts, once every adapter has delivered. */
    method Finish(plan: seq<Work>, current: set<Source>) returns (total: nat)
      requires PlanOk(naming, plan, current) && InStep(Reingested(plan, current), SourcesOf(plan))
      modifies this`fts, this`sources, this`primaryCounts, this`categoryCounts
      ensures Valid() && Agrees(View()) && total == |papers| && Covered() && Tallied()
      ensures forall r <- papers :: papers[r].source in SourcesOf(plan)
      ensures forall w <- plan :: w.source in sources && sources[w.source] == CountOf(papers, w.source)
    {
      IndexAll(plan, current);
      AgreesIsBuilt(View());
      total := Summarize(plan);
      assert sources == map[] ==> SourcesOf(plan) == {};
    }

    /** The adapters in plan order. Dying after the last batch undoes the index phase, which is not committed yet. */
    method RunAdapters(plan: seq<Work>, current: set<Source>, death: Option<nat>) returns (feed: Feed)
      requires PlanOk(naming, plan, current) && InStep(Reingested(plan, current), SourcesOf(plan))
      modifies this`papers, this`fts
      ensures feed != BadBatch ==> InStep(Reingested(plan, current), SourcesOf(plan))
      ensures feed == Died ==> death.Some? && Gave(naming, old(papers), papers, AllBatches(plan, current), death.value)
      ensures feed == BadBatch ==> !FeedsFit(plan, current)
      ensures feed == Delivered ==> FeedsFit(plan, current)
      ensures feed == Delivered ==> papers == UpsertAll(naming, old(papers), AllBatches(plan, current))
    {
      ghost var pending, allowed := Reingested(plan, current), SourcesOf(plan);
      var commits := 0;
      RanStarts(naming, papers, plan, current);
      for i := 0 to |plan|
        invariant InStep(pending, allowed) && Ran(naming, old(papers), papers, plan, current, i, commits)
        invariant FeedsFit(plan[..i], current)
      {
        ghost var before, done := papers, commits;
        assert plan[i] in plan;
        feed, commits := DeliverWork(plan[i], current, death, commits, pending, allowed);
        if feed == BadBatch {
          return feed;
        }
        if feed == Died {
          DiedInPlan(naming, old(papers), before, papers, plan, current, i, done, commits);
          return feed;
        }
        FitsSoFar(plan, current, i);
        RanOn(naming, old(papers), before, papers, plan, current, i, done, commits);
      }
      assert plan[..|plan|] == plan;
      RanOut(naming, old(papers), papers, plan, current, commits);
      feed := if death == Some(commits) then Died else Delivered;
    }

    /** The recorded category counts are exact. */
    ghost predicate Tallied()
      reads this
    {
      CountsPrimaries(papers, papers.Keys, primaryCounts) && CountsListings(papers, papers.Keys, categoryCounts)
    }

    /** Counts the rows and records the exact count of every source worked on. */
    method Summarize(works: seq<Work>) returns (total: nat)
      modifies this`sources, this`primaryCounts, this`categoryCounts
      ensures Tallied() && total == |papers| && sources.Keys == old(sources).Keys + SourcesOf(works)
      ensures forall w <- works :: sources[w.source] == CountOf(papers, w.source)
    {
      var records;
      records, primaryCounts, categoryCounts := Census();
      PutSources(works, records);
      ExactCountsAddUp(papers, records);
      total := AddUp(records);
    }

    /** Records the counted sources. */
    method PutSources(works: seq<Work>, records: map<Source, nat>)
      modifies this`sources
      ensures sources.Keys == old(sources).Keys + SourcesOf(works)
      ensures forall w <- works :: sources[w.source] == Counted(records, w.source)
      ensures forall s <- old(sources) :: s !in SourcesOf(works) ==> sources[s] == old(sources)[s]
    {
      for i := 0 to |works|
        invariant sources.Keys == old(sources).Keys + SourcesOf(works[..i])
        invariant forall k | 0 <= k < i :: sources[works[k].source] == Counted(records, works[k].source)
        invariant forall s <- old(sources) :: s !in SourcesOf(works[..i]) ==> sources[s] == old(sources)[s]
      {
        assert works[..i + 1] == works[..i] + [works[i]];
        sources := sources[works[i].source := Counted(records, works[i].source)];
      }
      assert works[..|works|] == works;
    }

    /** An in-place refresh: every feed is indexed record by record, so the index agrees before and after. */
    method Refresh(feeds: seq<Work>) returns (outcome: Outcome)
      requires Valid() && Agrees(View()) && Covered() && (forall w <- feeds :: WorkOk(naming, w))
      modifies this
      ensures outcome.Completed? ==>
                && Valid() && Agrees(View())
                && papers == UpsertAll(naming, old(papers), CatchUps(feeds))
                && outcome.records == (if feeds == [] && sources != map[] then SumOf(sources) else |papers|)
                && (forall w <- feeds :: w.source in sources && sources[w.source] == CountOf(papers, w.source))
                && (feeds != [] || old(Tallied()) ==> Tallied())
      ensures outcome.Completed? <==> FeedsOk(feeds)
      ensures outcome.Completed? ==> Refreshed(naming, old(papers), papers, feeds)
      ensures outcome.Completed? && (old(sources) == map[] ==> SourcesOf(feeds) <= {"arxiv"}) ==> Covered()
    {
      if feeds == [] {
        RefreshedIsProvisioned(naming, papers, feeds);
        var recorded := TotalRecords();
        return Completed(recorded);
      }
      AgreesIsBuilt(View());
      outcome := TakeFeeds(feeds, Held() + SourcesOf(feeds));
      AgreesIsBuilt(View());
    }

    /** The feeds, record by record, and the counts after them. */
    method TakeFeeds(feeds: seq<Work>, ghost allowed: set<Source>) returns (outcome: Outcome)
      requires InStep({}, allowed) && forall w <- feeds :: w.source in allowed && WorkOk(naming, w)
      modifies this
      ensures outcome == Refused || outcome.Completed?
      ensures outcome.Completed? <==> FeedsOk(feeds)
      ensures outcome.Completed? ==>
                && InStep({}, allowed) && outcome.records == |papers| && Tallied()
                && papers == UpsertAll(naming, old(papers), CatchUps(feeds))
                && Refreshed(naming, old(papers), papers, feeds)
                && sources.Keys == old(sources).Keys + SourcesOf(feeds)
                && (forall w <- feeds :: sources[w.source] == CountOf(papers, w.source))
    {
      var feed := RefreshAll(feeds, allowed);
      if feed == BadBatch {
        return Refused;
      }
      var total := Summarize(feeds);
      return Completed(total);
    }

    method RefreshOne(w: Work, ghost allowed: set<Source>) returns (accepted: bool)
      requires InStep({}, allowed) && w.source in allowed && WorkOk(naming, w)
      modifies this`papers, this`fts
      ensures accepted <==> FeedOk(w)
      ensures accepted ==> InStep({}, allowed) && papers == UpsertAll(naming, old(papers), w.catchUp)
    {
      var feed, commits := DeliverAll(w.catchUp, w.source, true, None, 0, {}, allowed);
      GaveEverything(naming, old(papers), papers, w.catchUp);
      accepted := feed == Delivered;
    }

    method RefreshAll(feeds: seq<Work>, ghost allowed: set<Source>) returns (feed: Feed)
      requires InStep({}, allowed) && forall w <- feeds :: w.source in allowed && WorkOk(naming, w)
      modifies this`papers, this`fts
      ensures feed == Delivered || feed == BadBatch
      ensures feed == Delivered <==> FeedsOk(feeds)
      ensures feed == Delivered ==> InStep({}, allowed) && papers == UpsertAll(naming, old(papers), CatchUps(feeds))
      ensures feed == Delivered ==> Refreshed(naming, old(papers), papers, feeds)
    {
      RefreshedIsProvisioned(naming, papers, feeds);
      for i := 0 to |feeds|
        invariant InStep({}, allowed)
        invariant FeedsOk(feeds[..i])
        invariant papers == UpsertAll(naming, old(papers), CatchUps(feeds[..i]))
      {
        CatchUpsGrow(naming, old(papers), feeds, i);
        FeedsOkGrows(feeds, i);
        assert feeds[i] in feeds;
        var accepted := RefreshOne(feeds[i], allowed);
        if !accepted {
          return BadBatch;
        }
      }
      assert feeds[..|feeds|] == feeds;
      feed := Delivered;
    }
  }

  lemma CatchUpsGrow(n: Naming, papers: map<RowId, Paper>, feeds: seq<Work>, i: nat)
    requires i < |feeds|
    ensures UpsertAll(n, papers, CatchUps(feeds[..i + 1])) ==
            UpsertAll(n, UpsertAll(n, papers, CatchUps(feeds[..i])), feeds[i].catchUp)
  {
    assert feeds[..i + 1][..i] == feeds[..i];
    UpsertAllInTwo(n, papers, CatchUps(feeds[..i]), feeds[i].catchUp);
  }

  lemma DropKept(papers: map<RowId, Paper>, current: set<Source>, rest: set<Source>, s: Source)
    requires s in rest && s !in current
    ensures var kept := KeptRows(papers, current + rest);
            kept - RowsOfSource(kept, s) == KeptRows(papers, current + (rest - {s}))
  {
  }

  lemma EntriesGrow(papers: map<RowId, Paper>, base: map<RowId, Entry>, rows: seq<RowId>, i: nat)
    requires i < |rows| && rows[i] in papers
    ensures base + EntriesOf(papers, AsSet(rows[..i + 1])) ==
            (base + EntriesOf(papers, AsSet(rows[..i])))[rows[i] := Columns(papers[rows[i]])]
  {
    assert rows[..i + 1] == rows[..i] + [rows[i]];
  }

  function CountIn(papers: map<RowId, Paper>, done: set<RowId>, s: Source): nat { |RowsOfSource(papers, s) * done| }

  lemma OneMoreRow(papers: map<RowId, Paper>, done: set<RowId>, r: RowId, s: Source)
    requires r in papers && r !in done
    ensures CountIn(papers, done + {r}, s) == CountIn(papers, done, s) + if s == papers[r].source then 1 else 0
  {
    var before := RowsOfSource(papers, s) * done;
    if s == papers[r].source {
      assert RowsOfSource(papers, s) * (done + {r}) == before + {r};
    } else {
      assert RowsOfSource(papers, s) * (done + {r}) == before;
    }
  }

  lemma TallyGrows(papers: map<RowId, Paper>, done: set<RowId>, r: RowId, records: map<Source, nat>)
    requires r in papers && r !in done && forall s :: Counted(records, s) == CountIn(papers, done, s)
    ensures var t := papers[r].source;
            forall s :: Counted(records[t := Counted(records, t) + 1], s) == CountIn(papers, done + {r}, s)
  {
    var t := papers[r].source;
    forall s ensures Counted(records[t := Counted(records, t) + 1], s) == CountIn(papers, done + {r}, s) {
      OneMoreRow(papers, done, r, s);
    }
  }
}
