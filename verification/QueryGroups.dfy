/** Which terms of a query are alternatives: how OR groups the required terms. */
module QueryGroups {
  import opened Wrappers
  import opened Query
  import opened QueryLaws

  /** What a raw clause does to the query: it adds a required term, excludes one, or announces an alternative. */
  datatype Event = Term(clause: Clause) | Exclusion(clause: Clause) | OrMark

  /** The event of a raw clause: a bare "or" counts once something is required, and is an ordinary word before. */
  function EventOf(u: Unicode, s: State, raw: Raw): seq<Event> {
    if KeywordOf(raw) == OrWord && s.required != [] then [OrMark]
    else
      var kept := KeptOf(u, s, raw);
      if kept == [] then [] else if kept[0].negated then [Exclusion(kept[0])] else [Term(kept[0])]
  }

  function Events(u: Unicode, raws: seq<Raw>): seq<Event> {
    if raws == [] then []
    else Events(u, raws[..|raws| - 1]) + EventOf(u, Fold(u, START, raws[..|raws| - 1]), raws[|raws| - 1])
  }

  function Terms(events: seq<Event>): seq<Clause> {
    if events == [] then []
    else
      var last := events[|events| - 1];
      Terms(events[..|events| - 1]) + if last.Term? then [last.clause] else []
  }

  /** Where the required terms stand. */
  function Positions(events: seq<Event>): seq<nat> {
    if events == [] then []
    else
      var n := |events| - 1;
      Positions(events[..n]) + if events[n].Term? then [n] else []
  }

  /** An "or" stands between two positions, with no exclusion after it. */
  predicate Linked(events: seq<Event>, from: nat, to: nat)
    requires to <= |events|
  {
    exists k :: from < k < to && events[k].OrMark? && forall j :: k < j < to ==> !events[j].Exclusion?
  }

  /** For each required term, whether it is an alternative to the required term before it. */
  predicate Follows(events: seq<Event>, n: nat)
    requires n < |Positions(events)|
  {
    n > 0 && Positions(events)[n - 1] < Positions(events)[n] <= |events|
    && Linked(events, Positions(events)[n - 1], Positions(events)[n])
  }

  /** For each clause of some groups, in order, whether it continues the group of the clause before it. */
  function Continued(groups: seq<Group>): seq<bool> {
    if groups == [] then []
    else Continued(groups[..|groups| - 1]) + [false] + seq(|groups[|groups| - 1]| - 1, _ => true)
  }

  // ---------------------------------------------------------------- one more event

  /** Positions are in order, and no term lies behind the last of them. */
  lemma {:induction false} PositionsAre(events: seq<Event>)
    ensures forall n :: 0 <= n < |Positions(events)| ==>
              Positions(events)[n] < |events| && events[Positions(events)[n]].Term?
    ensures forall m, n :: 0 <= m < n < |Positions(events)| ==> Positions(events)[m] < Positions(events)[n]
    ensures forall i :: 0 <= i < |events| && events[i].Term? ==> i in Positions(events)
    ensures |Positions(events)| == |Terms(events)|
  {
    if events != [] {
      PositionsAre(events[..|events| - 1]);
    }
  }

  /** An "or" counts only after a term. */
  predicate OrsAfterTerms(events: seq<Event>) {
    forall k :: 0 <= k < |events| && events[k].OrMark? ==> exists j :: 0 <= j < k && events[j].Term?
  }

  lemma EventAppended(events: seq<Event>, e: Event)
    ensures Terms(events + [e]) == Terms(events) + if e.Term? then [e.clause] else []
    ensures Positions(events + [e]) == Positions(events) + if e.Term? then [|events|] else []
  {
    assert (events + [e])[..|events|] == events;
  }

  lemma LinkedKept(events: seq<Event>, e: Event, from: nat, to: nat)
    requires to <= |events|
    ensures Linked(events + [e], from, to) <==> Linked(events, from, to)
  {
    if Linked(events, from, to) {
      var k :| from < k < to && events[k].OrMark? && forall j :: k < j < to ==> !events[j].Exclusion?;
      assert (events + [e])[k].OrMark?;
    }
    if Linked(events + [e], from, to) {
      var k :| from < k < to && (events + [e])[k].OrMark? && forall j :: k < j < to ==> !(events + [e])[j].Exclusion?;
      assert events[k].OrMark? && forall j :: k < j < to ==> (events + [e])[j] == events[j];
    }
  }

  /** A term follows the term before it exactly when what stands just before it is an "or". */
  lemma LinkedNow(events: seq<Event>, from: nat)
    requires from < |events| && events[from].Term? && forall j :: from < j < |events| ==> !events[j].Term?
    ensures Linked(events, from, |events|) <==> events[|events| - 1].OrMark?
  {
    var n := |events|;
    if events[n - 1].OrMark? {
      assert from < n - 1;
    }
    if Linked(events, from, n) {
      var k :| from < k < n && events[k].OrMark? && forall j :: k < j < n ==> !events[j].Exclusion?;
    }
  }

  // ---------------------------------------------------------------- groups

  lemma ContinuedSnoc(groups: seq<Group>, group: Group)
    ensures Continued(groups + [group]) == Continued(groups) + [false] + seq(|group| - 1, _ => true)
  {
    assert (groups + [group])[..|groups|] == groups;
  }

  /** A term that joins the last group continues it; a group of its own does not. */
  lemma PlaceContinues(s: State, built: Clause)
    requires s.pendingOr ==> s.required != []
    ensures var c := if s.pendingNot then built.(negated := true) else built;
            Continued(Place(s, built).required) == Continued(s.required) + if c.negated then [] else [s.pendingOr]
  {
    var c := if s.pendingNot then built.(negated := true) else built;
    if !c.negated {
      if s.pendingOr {
        var n := |s.required| - 1;
        var last: Group := s.required[n] + [c];
        assert s.required[..n] + [s.required[n]] == s.required;
        ContinuedSnoc(s.required[..n], s.required[n]);
        ContinuedSnoc(s.required[..n], last);
        assert seq(|last| - 1, _ => true) == seq(|s.required[n]| - 1, _ => true) + [true];
      } else {
        ContinuedSnoc(s.required, [c]);
        assert seq(0, _ => true) == [];
      }
    }
  }

  /** What the state of the parser says about the events so far. */
  ghost predicate Agrees(s: State, events: seq<Event>) {
    && Joined(s.required) == Terms(events)
    && |Continued(s.required)| == |Positions(events)|
    && (forall n :: 0 <= n < |Positions(events)| ==> (Continued(s.required)[n] <==> Follows(events, n)))
    && (s.pendingOr <==> events != [] && events[|events| - 1].OrMark?)
    && (s.required == [] <==> Positions(events) == [])
    && (s.pendingOr ==> s.required != [])
  }

  lemma FollowsKept(events: seq<Event>, e: Event, n: nat)
    requires n < |Positions(events)|
    ensures n < |Positions(events + [e])| && (Follows(events + [e], n) <==> Follows(events, n))
  {
    EventAppended(events, e);
    PositionsAre(events);
    if n > 0 {
      LinkedKept(events, e, Positions(events)[n - 1], Positions(events)[n]);
    }
  }

  lemma TermFollows(events: seq<Event>, c: Clause)
    ensures var more, n := events + [Term(c)], |Positions(events)|;
            && |Positions(more)| == n + 1
            && (Follows(more, n) <==> n > 0 && events[|events| - 1].OrMark?)
  {
    var n := |Positions(events)|;
    EventAppended(events, Term(c));
    PositionsAre(events);
    if n > 0 {
      var from := Positions(events)[n - 1];
      forall j | from < j < |events| ensures !events[j].Term? {
        assert events[j].Term? ==> j in Positions(events);
      }
      LinkedNow(events, from);
      LinkedKept(events, Term(c), from, |events|);
    }
  }

  /** An event that is no term: the groups stay. */
  lemma AgreesBetween(s: State, events: seq<Event>, t: State, e: Event)
    requires Agrees(s, events) && t.required == s.required && !e.Term? && (t.pendingOr <==> e.OrMark?)
    requires e.OrMark? ==> s.required != []
    ensures Agrees(t, events + [e])
  {
    EventAppended(events, e);
    forall n | 0 <= n < |Positions(events)| ensures Follows(events + [e], n) <==> Follows(events, n) {
      FollowsKept(events, e, n);
    }
  }

  lemma AgreesAtTerm(s: State, events: seq<Event>, built: Clause)
    requires Agrees(s, events)
    requires var c := if s.pendingNot then built.(negated := true) else built; !c.negated
    ensures var c := if s.pendingNot then built.(negated := true) else built;
            Agrees(Place(s, built), events + [Term(c)])
  {
    var c := if s.pendingNot then built.(negated := true) else built;
    PlaceAppends(s, built);
    PlaceContinues(s, built);
    EventAppended(events, Term(c));
    TermFollows(events, c);
    forall n | 0 <= n < |Positions(events)| ensures Follows(events + [Term(c)], n) <==> Follows(events, n) {
      FollowsKept(events, Term(c), n);
    }
  }

  lemma StepAgrees(u: Unicode, s: State, events: seq<Event>, raw: Raw)
    requires Agrees(s, events)
    ensures Agrees(Step(u, s, raw), events + EventOf(u, s, raw))
  {
    var t := Step(u, s, raw);
    if KeywordOf(raw) == OrWord && s.required != [] {
      AgreesBetween(s, events, t, OrMark);
    } else if KeywordOf(raw) == AndWord || KeywordOf(raw) == NotWord || BuildClause(u, raw).None? {
      assert events + [] == events;
    } else {
      var built := BuildClause(u, raw).value;
      var c := if s.pendingNot then built.(negated := true) else built;
      if c.negated {
        PlaceAppends(s, built);
        AgreesBetween(s, events, t, Exclusion(c));
      } else {
        AgreesAtTerm(s, events, built);
      }
    }
  }

  lemma FoldSnoc(u: Unicode, raws: seq<Raw>, raw: Raw)
    ensures Fold(u, START, raws + [raw]) == Step(u, Fold(u, START, raws), raw)
  {
    FoldInTwo(u, START, raws, [raw]);
    FoldSteps(u, Fold(u, START, raws), raw, []);
    assert [raw] + [] == [raw];
  }

  /**
   * For every query: the required terms are in the order they were written, and two that follow each other are
   * alternatives in one group exactly when an "or" stands between them with no exclusion after it.
   */
  lemma {:induction false} GroupsFollowOr(u: Unicode, raws: seq<Raw>)
    ensures Agrees(Fold(u, START, raws), Events(u, raws))
  {
    if raws != [] {
      var n := |raws| - 1;
      GroupsFollowOr(u, raws[..n]);
      StepAgrees(u, Fold(u, START, raws[..n]), Events(u, raws[..n]), raws[n]);
      FoldSnoc(u, raws[..n], raws[n]);
      assert raws == raws[..n] + [raws[n]];
    }
  }

  /** A term after an "or" joins the last group; without one it opens a group of its own. */
  lemma OrJoins(u: Unicode, s: State, word: Raw, x: Raw, c: Clause)
    requires KeywordOf(word) == OrWord && KeywordOf(x) == NoKeyword && BuildClause(u, x) == Some(c) && !c.negated
    requires s.required != [] && !s.pendingNot
    ensures var n := |s.required| - 1;
            Fold(u, s, [word, x]) == State(s.required[..n] + [s.required[n] + [c]], s.excluded, false, false)
    ensures !s.pendingOr ==> Fold(u, s, [x]) == State(s.required + [[c]], s.excluded, false, false)
  {
    FoldSteps(u, s, word, [x]);
    FoldSteps(u, s.(pendingOr := true), x, []);
    FoldSteps(u, s, x, []);
    assert [word] + [x] == [word, x] && [x] + [] == [x];
  }
}
