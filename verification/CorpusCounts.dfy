/**
 * The counts a provisioning run records: rows, primary categories and category memberships per source, and their merge.
 */
module CorpusCounts {
  import opened CorpusIndex
  import opened Wrappers

  const NO_CATEGORIES := "||"

  /** Counts by source and by name, as nested dictionaries. */
  type Table = map<Source, map<string, nat>>

  function In(counts: map<string, nat>, name: string): nat { if name in counts then counts[name] else 0 }

  function Entry2(t: Table, s: Source, name: string): nat { if s in t then In(t[s], name) else 0 }

  // ---------------------------------------------------------------- packed categories

  /** The length up to the next bar. */
  function Bar(s: string): (n: nat)
    ensures n <= |s| && (n < |s| ==> s[n] == '|') && forall i | 0 <= i < n :: s[i] != '|'
  {
    if s == "" || s[0] == '|' then 0 else 1 + Bar(s[1..])
  }

  /** str.split("|"). */
  function Pieces(s: string): seq<string>
    decreases |s|
  {
    var n := Bar(s);
    if n == |s| then [s] else [s[..n]] + Pieces(s[n + 1..])
  }

  /** How often a category is listed; the empty pieces around the bars are none. */
  function Occurs(pieces: seq<string>, category: string): nat {
    if pieces == [] then 0
    else Occurs(pieces[..|pieces| - 1], category) + if category != "" && pieces[|pieces| - 1] == category then 1 else 0
  }

  function Listed(packed: string, category: string): nat { Occurs(Pieces(packed), category) }

  /** What the catalogue writes for a paper without categories lists none. */
  lemma NoneListed(category: string)
    ensures Listed(NO_CATEGORIES, category) == 0
  {
    assert Bar("||") == 0 && "||"[1..] == "|" && Bar("|") == 0 && "|"[1..] == "" && Bar("") == 0;
    assert Pieces("") == [""];
    assert Pieces("|") == ["", ""];
    assert Pieces("||") == ["", "", ""];
    assert ["", "", ""][..2] == ["", ""] && ["", ""][..1] == [""] && [""][..0] == [];
    assert Occurs([""], category) == 0 && Occurs(["", ""], category) == 0;
  }

  /** Names packed between bars. */
  function Packed(names: seq<string>): string
    requires names != []
  {
    if |names| == 1 then names[0] else names[0] + "|" + Packed(names[1..])
  }

  lemma {:induction false} BarAfter(name: string, rest: string)
    requires '|' !in name
    ensures Bar(name + "|" + rest) == |name| && Bar(name) == |name|
  {
    if name != "" {
      assert (name + "|" + rest)[1..] == name[1..] + "|" + rest;
      BarAfter(name[1..], rest);
    }
  }

  lemma {:induction false} PiecesInvertPacking(names: seq<string>)
    requires names != [] && forall name <- names :: '|' !in name
    ensures Pieces(Packed(names)) == names
  {
    var first := names[0];
    assert first in names && forall name <- names[1..] :: name in names;
    if |names| == 1 {
      BarAfter(first, "");
    } else {
      var rest := Packed(names[1..]);
      BarAfter(first, rest);
      assert Packed(names) == first + "|" + rest;
      assert Packed(names)[..|first|] == first && Packed(names)[|first| + 1..] == rest;
      PiecesInvertPacking(names[1..]);
    }
  }

  lemma {:induction false} OccursCounts(pieces: seq<string>, category: string)
    ensures Occurs(pieces, category) == if category == "" then 0 else multiset(pieces)[category]
  {
    if pieces != [] {
      OccursCounts(pieces[..|pieces| - 1], category);
      assert pieces == pieces[..|pieces| - 1] + [pieces[|pieces| - 1]];
    }
  }

  /** A packed list lists each of its names as often as it was packed, wherever it stands between the bars. */
  lemma ListedAsPacked(names: seq<string>, category: string)
    requires names != [] && forall name <- names :: '|' !in name
    ensures Listed(Packed(names), category) == if category == "" then 0 else multiset(names)[category]
  {
    PiecesInvertPacking(names);
    OccursCounts(names, category);
  }

  // ---------------------------------------------------------------- sums over rows

  ghost function Total(papers: map<RowId, Paper>, rows: set<RowId>, f: Paper -> nat): nat
    requires rows <= papers.Keys
    decreases |rows|
  {
    if rows == {} then 0
    else
      var r :| r in rows;
      f(papers[r]) + Total(papers, rows - {r}, f)
  }

  lemma {:induction false} TotalTakes(papers: map<RowId, Paper>, rows: set<RowId>, r: RowId, f: Paper -> nat)
    requires rows <= papers.Keys && r in rows
    ensures Total(papers, rows, f) == f(papers[r]) + Total(papers, rows - {r}, f)
    decreases |rows|
  {
    var k :| k in rows && Total(papers, rows, f) == f(papers[k]) + Total(papers, rows - {k}, f);
    if k != r {
      TotalTakes(papers, rows - {k}, r, f);
      TotalTakes(papers, rows - {r}, k, f);
      assert rows - {k} - {r} == rows - {r} - {k};
    }
  }

  lemma TotalAdds(papers: map<RowId, Paper>, rows: set<RowId>, r: RowId, f: Paper -> nat)
    requires rows <= papers.Keys && r in papers && r !in rows
    ensures Total(papers, rows + {r}, f) == Total(papers, rows, f) + f(papers[r])
  {
    TotalTakes(papers, rows + {r}, r, f);
    assert rows + {r} - {r} == rows;
  }

  /** One source's rows with a primary category, and one source's listings of a category. */
  function PrimaryIn(s: Source, name: string): Paper -> nat {
    (p: Paper) => if p.source == s && p.primary == Some(name) then 1 else 0
  }

  function ListedIn(s: Source, name: string): Paper -> nat {
    (p: Paper) => if p.source == s then Listed(p.categories, name) else 0
  }

  /** The listings of a category whatever the source. */
  function ListedAnywhere(name: string): Paper -> nat { (p: Paper) => Listed(p.categories, name) }

  function ListedAmong(sources: set<Source>, name: string): Paper -> nat {
    (p: Paper) => if p.source in sources then Listed(p.categories, name) else 0
  }

  ghost predicate CountsPrimaries(papers: map<RowId, Paper>, rows: set<RowId>, t: Table)
    requires rows <= papers.Keys
  {
    forall s, name :: Entry2(t, s, name) == Total(papers, rows, PrimaryIn(s, name))
  }

  ghost predicate CountsListings(papers: map<RowId, Paper>, rows: set<RowId>, t: Table)
    requires rows <= papers.Keys
  {
    forall s, name :: Entry2(t, s, name) == Total(papers, rows, ListedIn(s, name))
  }

  // ---------------------------------------------------------------- counting

  function Bump(t: Table, s: Source, name: string): (after: Table)
    ensures forall s2, n2 :: Entry2(after, s2, n2) == Entry2(t, s2, n2) + if s2 == s && n2 == name then 1 else 0
  {
    var counts := if s in t then t[s] else map[];
    t[s := counts[name := In(counts, name) + 1]]
  }

  method AddPrimary(t0: Table, s: Source, primary: Option<string>) returns (t: Table)
    ensures forall s2, name ::
            Entry2(t, s2, name) == Entry2(t0, s2, name) + if s2 == s && primary == Some(name) then 1 else 0
  {
    t := t0;
    if primary.Some? {
      t := Bump(t, s, primary.value);
    }
  }

  method AddListings(t0: Table, s: Source, packed: string) returns (t: Table)
    ensures forall s2, name :: Entry2(t, s2, name) == Entry2(t0, s2, name) + if s2 == s then Listed(packed, name) else 0
  {
    t := t0;
    if packed == NO_CATEGORIES {
      forall name ensures Listed(packed, name) == 0 {
        NoneListed(name);
      }
      return;
    }
    var pieces := Pieces(packed);
    assert forall name :: Occurs(pieces[..0], name) == 0;
    for i := 0 to |pieces|
      invariant forall s2, name ::
                Entry2(t, s2, name) == Entry2(t0, s2, name) + if s2 == s then Occurs(pieces[..i], name) else 0
    {
      assert pieces[..i + 1][..i] == pieces[..i];
      if pieces[i] != "" {
        t := Bump(t, s, pieces[i]);
      }
    }
    assert pieces[..|pieces|] == pieces;
  }

  lemma PrimariesGrow(papers: map<RowId, Paper>, rows: set<RowId>, r: RowId, t: Table, after: Table)
    requires rows <= papers.Keys && r in papers && r !in rows && CountsPrimaries(papers, rows, t)
    requires forall s, name ::
             Entry2(after, s, name) == Entry2(t, s, name)
             + if s == papers[r].source && papers[r].primary == Some(name) then 1 else 0
    ensures CountsPrimaries(papers, rows + {r}, after)
  {
    forall s, name ensures Entry2(after, s, name) == Total(papers, rows + {r}, PrimaryIn(s, name)) {
      TotalAdds(papers, rows, r, PrimaryIn(s, name));
    }
  }

  lemma ListingsGrow(papers: map<RowId, Paper>, rows: set<RowId>, r: RowId, t: Table, after: Table)
    requires rows <= papers.Keys && r in papers && r !in rows && CountsListings(papers, rows, t)
    requires forall s, name ::
             Entry2(after, s, name) == Entry2(t, s, name)
             + if s == papers[r].source then Listed(papers[r].categories, name) else 0
    ensures CountsListings(papers, rows + {r}, after)
  {
    forall s, name ensures Entry2(after, s, name) == Total(papers, rows + {r}, ListedIn(s, name)) {
      TotalAdds(papers, rows, r, ListedIn(s, name));
    }
  }

  // ---------------------------------------------------------------- merging

  /** The counts of a name over some sources. */
  ghost function Across(t: Table, sources: set<Source>, name: string): nat
    decreases |sources|
  {
    if sources == {} then 0
    else
      var s :| s in sources;
      Entry2(t, s, name) + Across(t, sources - {s}, name)
  }

  lemma {:induction false} AcrossTakes(t: Table, sources: set<Source>, s: Source, name: string)
    requires s in sources
    ensures Across(t, sources, name) == Entry2(t, s, name) + Across(t, sources - {s}, name)
    decreases |sources|
  {
    var k :| k in sources && Across(t, sources, name) == Entry2(t, k, name) + Across(t, sources - {k}, name);
    if k != s {
      AcrossTakes(t, sources - {k}, s, name);
      AcrossTakes(t, sources - {s}, k, name);
      assert sources - {k} - {s} == sources - {s} - {k};
    }
  }

  /** Adds one source's counts to the merged ones, name by name. */
  method MergeOne(merged0: map<string, nat>, counts: map<string, nat>) returns (merged: map<string, nat>)
    ensures forall name :: In(merged, name) == In(merged0, name) + In(counts, name)
  {
    merged := merged0;
    var rest := counts.Keys;
    while rest != {}
      invariant rest <= counts.Keys
      invariant forall name :: In(merged, name) == In(merged0, name) + if name in rest then 0 else In(counts, name)
      decreases |rest|
    {
      var name :| name in rest;
      merged := merged[name := In(merged, name) + counts[name]];
      rest := rest - {name};
    }
  }

  method MergeCounts(stored: Table, source: Option<Source>) returns (merged: map<string, nat>)
    ensures forall name ::
              In(merged, name) ==
              if source.Some? then Entry2(stored, source.value, name) else Across(stored, stored.Keys, name)
  {
    if source.Some? {
      return if source.value in stored then stored[source.value] else map[];
    }
    merged := map[];
    var rest := stored.Keys;
    while rest != {}
      invariant rest <= stored.Keys
      invariant forall name :: In(merged, name) + Across(stored, rest, name) == Across(stored, stored.Keys, name)
      decreases |rest|
    {
      var s :| s in rest;
      forall name ensures Across(stored, rest, name) == Entry2(stored, s, name) + Across(stored, rest - {s}, name) {
        AcrossTakes(stored, rest, s, name);
      }
      merged := MergeOne(merged, stored[s]);
      rest := rest - {s};
    }
  }

  lemma {:induction false} AmongAdds(papers: map<RowId, Paper>, rows: set<RowId>, sources: set<Source>, s: Source,
                                     name: string)
    requires rows <= papers.Keys && s in sources
    ensures Total(papers, rows, ListedAmong(sources, name)) ==
            Total(papers, rows, ListedIn(s, name)) + Total(papers, rows, ListedAmong(sources - {s}, name))
    decreases |rows|
  {
    if rows != {} {
      var r :| r in rows;
      TotalTakes(papers, rows, r, ListedAmong(sources, name));
      TotalTakes(papers, rows, r, ListedIn(s, name));
      TotalTakes(papers, rows, r, ListedAmong(sources - {s}, name));
      AmongAdds(papers, rows - {r}, sources, s, name);
    }
  }

  lemma {:induction false} AcrossIsAmong(papers: map<RowId, Paper>, t: Table, sources: set<Source>, name: string)
    requires CountsListings(papers, papers.Keys, t)
    ensures Across(t, sources, name) == Total(papers, papers.Keys, ListedAmong(sources, name))
    decreases |sources|
  {
    if sources == {} {
      NothingAmong(papers, papers.Keys, name);
    } else {
      var s :| s in sources;
      AcrossTakes(t, sources, s, name);
      AcrossIsAmong(papers, t, sources - {s}, name);
      AmongAdds(papers, papers.Keys, sources, s, name);
    }
  }

  lemma {:induction false} NothingAmong(papers: map<RowId, Paper>, rows: set<RowId>, name: string)
    requires rows <= papers.Keys
    ensures Total(papers, rows, ListedAmong({}, name)) == 0
    decreases |rows|
  {
    if rows != {} {
      var r :| r in rows;
      TotalTakes(papers, rows, r, ListedAmong({}, name));
      NothingAmong(papers, rows - {r}, name);
    }
  }

  lemma {:induction false} NoneOutside(papers: map<RowId, Paper>, rows: set<RowId>, t: Table, name: string)
    requires rows <= papers.Keys && CountsListings(papers, papers.Keys, t)
    ensures Total(papers, rows, ListedAmong(t.Keys, name)) == Total(papers, rows, ListedAnywhere(name))
    decreases |rows|
  {
    if rows != {} {
      var r :| r in rows;
      var s := papers[r].source;
      TotalTakes(papers, rows, r, ListedAmong(t.Keys, name));
      TotalTakes(papers, rows, r, ListedAnywhere(name));
      if s !in t {
        assert Entry2(t, s, name) == Total(papers, papers.Keys, ListedIn(s, name));
        TotalTakes(papers, papers.Keys, r, ListedIn(s, name));
      }
      NoneOutside(papers, rows - {r}, t, name);
    }
  }

  /**
   * Merging the per-source counts of a census gives every category's listings over the whole catalogue, none lost and
   * none twice.
   */
  lemma {:induction false} MergedIsOverall(papers: map<RowId, Paper>, t: Table, name: string)
    requires CountsListings(papers, papers.Keys, t)
    ensures Across(t, t.Keys, name) == Total(papers, papers.Keys, ListedAnywhere(name))
  {
    AcrossIsAmong(papers, t, t.Keys, name);
    NoneOutside(papers, papers.Keys, t, name);
  }

  // ---------------------------------------------------------------- recorded totals

  ghost function SumOf(counts: map<Source, nat>): nat
    decreases |counts|
  {
    if counts == map[] then 0
    else
      var s :| s in counts;
      counts[s] + SumOf(counts - {s})
  }

  lemma {:induction false} SumTakes(counts: map<Source, nat>, s: Source)
    requires s in counts
    ensures SumOf(counts) == counts[s] + SumOf(counts - {s})
    decreases |counts|
  {
    var k :| k in counts && SumOf(counts) == counts[k] + SumOf(counts - {k});
    if k != s {
      SumTakes(counts - {k}, s);
      SumTakes(counts - {s}, k);
      assert counts - {k} - {s} == counts - {s} - {k};
    }
  }

  method AddUp(counts: map<Source, nat>) returns (total: nat)
    ensures total == SumOf(counts)
  {
    total := 0;
    var rest := counts;
    while rest != map[]
      invariant total + SumOf(rest) == SumOf(counts)
      decreases |rest|
    {
      var s :| s in rest;
      SumTakes(rest, s);
      total := total + rest[s];
      rest := rest - {s};
    }
  }

  function CountOf(papers: map<RowId, Paper>, source: Source): nat { |RowsOfSource(papers, source)| }

  function Counted(records: map<Source, nat>, s: Source): nat { if s in records then records[s] else 0 }

  /** The papers of every other source. */
  function Others(papers: map<RowId, Paper>, s: Source): map<RowId, Paper> { papers - RowsOfSource(papers, s) }

  lemma OthersCount(papers: map<RowId, Paper>, s: Source, t: Source)
    ensures CountOf(Others(papers, s), t) == if t == s then 0 else CountOf(papers, t)
    ensures |papers| == CountOf(papers, s) + |Others(papers, s)|
  {
    var rows, others := RowsOfSource(papers, s), Others(papers, s);
    assert RowsOfSource(others, t) == if t == s then {} else RowsOfSource(papers, t);
    assert rows + others.Keys == papers.Keys && rows !! others.Keys;
    assert |papers.Keys| == |rows| + |others.Keys|;
  }

  lemma RowIsCounted(papers: map<RowId, Paper>, r: RowId)
    requires r in papers
    ensures CountOf(papers, papers[r].source) > 0
  {
    assert r in RowsOfSource(papers, papers[r].source);
  }

  /** Counts that are exact for every source add up to the number of rows. */
  lemma {:induction false} ExactCountsAddUp(papers: map<RowId, Paper>, counts: map<Source, nat>)
    requires forall s :: Counted(counts, s) == CountOf(papers, s)
    ensures SumOf(counts) == |papers|
    decreases |counts|
  {
    if counts == map[] {
      if r :| r in papers {
        RowIsCounted(papers, r);
        assert false;
      }
    } else {
      var s :| s in counts;
      SumTakes(counts, s);
      assert Counted(counts, s) == counts[s];
      forall t ensures Counted(counts - {s}, t) == CountOf(Others(papers, s), t) {
        OthersCount(papers, s, t);
        assert Counted(counts, t) == CountOf(papers, t);
      }
      OthersCount(papers, s, s);
      ExactCountsAddUp(Others(papers, s), counts - {s});
    }
  }
}
