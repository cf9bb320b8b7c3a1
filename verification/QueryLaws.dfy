/** Laws of the query syntax that hold for every query, whatever surrounds the terms they speak of. */
module QueryLaws {
  import opened Wrappers
  import opened Query

  lemma {:induction false} FoldInTwo(u: Unicode, s: State, a: seq<Raw>, b: seq<Raw>)
    ensures Fold(u, s, a + b) == Fold(u, Fold(u, s, a), b)
    decreases a
  {
    if a == [] {
      assert a + b == b;
    } else {
      assert (a + b)[1..] == a[1..] + b;
      FoldInTwo(u, Step(u, s, a[0]), a[1..], b);
    }
  }

  /** A bare "and", in any case, changes nothing wherever it stands. */
  lemma AndIsInert(u: Unicode, before: seq<Raw>, word: Raw, after: seq<Raw>)
    requires KeywordOf(word) == AndWord
    ensures Fold(u, START, before + [word] + after) == Fold(u, START, before + after)
  {
    FoldInTwo(u, START, before, [word] + after);
    FoldInTwo(u, START, before, after);
    assert before + [word] + after == before + ([word] + after);
    assert ([word] + after)[1..] == after;
  }

  /**
   * "not x" and "-x" are the same exclusion exactly when x carries a searchable term or a "not" was already
   * waiting: in front of pure punctuation the word "not" waits for the next term, while the sign is dropped.
   */
  lemma NotIsMinus(u: Unicode, s: State, word: Raw, x: Raw)
    requires KeywordOf(word) == NotWord && KeywordOf(x) == NoKeyword && x[0] != '+' && x[0] != '-'
    ensures Fold(u, s, [word, x]) == Fold(u, s, ["-" + x]) <==> BuildClause(u, x).Some? || s.pendingNot
  {
    var signed: Raw := "-" + x;
    assert KeywordOf(signed) == NoKeyword && signed[1..] == x;
    var waiting := s.(pendingNot := true);
    assert Fold(u, s, [word, x]) == Step(u, waiting, x) by {
      assert [word, x][1..] == [x] && [x][1..] == [];
      assert Fold(u, waiting, [x]) == Fold(u, Step(u, waiting, x), []);
    }
    assert Fold(u, s, [signed]) == Step(u, s, signed) by {
      assert [signed][1..] == [];
    }
    BuiltBySign(u, x);
  }

  /**
   * The input that shows the difference: in "not ! x" the word waits past the punctuation and excludes x, in "-! x" the
   * sign goes with the punctuation and x is required. All that is used of the tables is that x is a letter and ! is
   * not.
   */
  lemma NotWaitsPastPunctuation(u: Unicode)
    requires u.isWord('x') && !u.isWord('!')
    ensures Fold(u, START, ["not", "!", "x"]) == State([], [Clause("x", None, false, true)], false, false)
    ensures Fold(u, START, ["-!", "x"]) == State([[Clause("x", None, false, false)]], [], false, false)
  {
    OneLetter(u, "x");
    OneLetter(u, "!");
    assert "-!"[1..] == "!";
    FoldSteps(u, START, "not", ["!", "x"]);
    FoldSteps(u, START.(pendingNot := true), "!", ["x"]);
    FoldSteps(u, START.(pendingNot := true), "x", []);
    FoldSteps(u, START, "-!", ["x"]);
    FoldSteps(u, START, "x", []);
  }

  lemma FoldSteps(u: Unicode, s: State, raw: Raw, rest: seq<Raw>)
    ensures Fold(u, s, [raw] + rest) == Fold(u, Step(u, s, raw), rest)
  {
    assert ([raw] + rest)[1..] == rest;
  }

  lemma OneLetter(u: Unicode, s: string)
    requires |s| == 1 && s[0] != ':' && s[0] != '"' && s[0] != '*' && !IsSpace(s[0])
    ensures forall negated ::
              BuildUnsigned(u, s, negated) ==
              if u.isWord(s[0]) then Some(Clause(s, None, false, negated)) else None
  {
    assert s[1..] == "" && Run(s, NotColon) == 1;
    assert Strip(s) == s;
  }

  lemma BuiltBySign(u: Unicode, x: string)
    ensures BuildUnsigned(u, x, false).Some? <==> BuildUnsigned(u, x, true).Some?
    ensures BuildUnsigned(u, x, false).Some? ==>
            BuildUnsigned(u, x, true).value == BuildUnsigned(u, x, false).value.(negated := true)
  {
  }

  // ---------------------------------------------------------------- nothing is lost or reordered

  /** The clause a raw match contributes, with the sign it ends up with; keywords and punctuation give none. */
  function KeptOf(u: Unicode, s: State, raw: Raw): seq<Clause> {
    var word := KeywordOf(raw);
    if word == AndWord || word == NotWord || (word == OrWord && s.required != []) then [] else BuiltOf(u, s, raw)
  }

  /** The clauses of a run of raw matches, in order. */
  function Kept(u: Unicode, s: State, raws: seq<Raw>): seq<Clause>
    decreases raws
  {
    if raws == [] then [] else KeptOf(u, s, raws[0]) + Kept(u, Step(u, s, raws[0]), raws[1..])
  }

  function Signed(clauses: seq<Clause>, negated: bool): seq<Clause> {
    if clauses == [] then []
    else (if clauses[0].negated == negated then [clauses[0]] else []) + Signed(clauses[1..], negated)
  }

  lemma {:induction false} SignedInTwo(a: seq<Clause>, b: seq<Clause>, negated: bool)
    ensures Signed(a + b, negated) == Signed(a, negated) + Signed(b, negated)
  {
    if a == [] {
      assert a + b == b;
    } else {
      assert (a + b)[1..] == a[1..] + b;
      SignedInTwo(a[1..], b, negated);
    }
  }

  lemma {:induction false} JoinedSnoc(groups: seq<Group>, last: Group)
    ensures Joined(groups + [last]) == Joined(groups) + last
  {
    if groups == [] {
      assert [last][1..] == [];
    } else {
      assert (groups + [last])[1..] == groups[1..] + [last];
      JoinedSnoc(groups[1..], last);
    }
  }

  lemma PlaceAppends(s: State, built: Clause)
    ensures var c := if s.pendingNot then built.(negated := true) else built;
            && Joined(Place(s, built).required) == Joined(s.required) + (if c.negated then [] else [c])
            && Place(s, built).excluded == s.excluded + (if c.negated then [c] else [])
  {
    var c := if s.pendingNot then built.(negated := true) else built;
    if !c.negated {
      if s.pendingOr && s.required != [] {
        var n := |s.required| - 1;
        JoinedSnoc(s.required[..n], s.required[n]);
        JoinedSnoc(s.required[..n], s.required[n] + [c]);
        assert s.required[..n] + [s.required[n]] == s.required;
      } else {
        JoinedSnoc(s.required, [c]);
      }
    }
  }

  /** The clause a raw match contributes when it is no keyword. */
  function BuiltOf(u: Unicode, s: State, raw: Raw): seq<Clause> {
    match BuildClause(u, raw)
    case None => []
    case Some(built) => [if s.pendingNot then built.(negated := true) else built]
  }

  lemma ClauseAppends(u: Unicode, s: State, raw: Raw)
    ensures Joined(StepClause(u, s, raw).required) == Joined(s.required) + Signed(BuiltOf(u, s, raw), false)
    ensures StepClause(u, s, raw).excluded == s.excluded + Signed(BuiltOf(u, s, raw), true)
  {
    match BuildClause(u, raw)
    case None =>
      assert Joined(s.required) + [] == Joined(s.required);
    case Some(built) =>
      PlaceAppends(s, built);
      OneSigned(BuiltOf(u, s, raw)[0]);
  }

  lemma OneSigned(c: Clause)
    ensures Signed([c], false) == (if c.negated then [] else [c]) && Signed([c], true) == if c.negated then [c] else []
  {
    assert [c][1..] == [];
  }

  lemma StepAppends(u: Unicode, s: State, raw: Raw)
    ensures Joined(Step(u, s, raw).required) == Joined(s.required) + Signed(KeptOf(u, s, raw), false)
    ensures Step(u, s, raw).excluded == s.excluded + Signed(KeptOf(u, s, raw), true)
  {
    ClauseAppends(u, s, raw);
    assert Joined(s.required) + [] == Joined(s.required) && s.excluded + [] == s.excluded;
  }

  /** Every searchable term of the query lands exactly once, required or excluded by its sign, in query order. */
  lemma {:induction false} ClausesAreKept(u: Unicode, s: State, raws: seq<Raw>)
    ensures Joined(Fold(u, s, raws).required) == Joined(s.required) + Signed(Kept(u, s, raws), false)
    ensures Fold(u, s, raws).excluded == s.excluded + Signed(Kept(u, s, raws), true)
    decreases raws
  {
    if raws != [] {
      var next := Step(u, s, raws[0]);
      var first, later := KeptOf(u, s, raws[0]), Kept(u, next, raws[1..]);
      StepAppends(u, s, raws[0]);
      ClausesAreKept(u, next, raws[1..]);
      assert Kept(u, s, raws) == first + later;
      SignedInTwo(first, later, false);
      SignedInTwo(first, later, true);
    }
  }

  // ---------------------------------------------------------------- quoting

  lemma {:induction false} RunsThrough(s: string, p: char -> bool, rest: string)
    requires (forall i | 0 <= i < |s| :: p(s[i])) && (rest == "" || !p(rest[0]))
    ensures Run(s + rest, p) == |s|
  {
    if s == "" {
      assert s + rest == rest;
    } else {
      assert (s + rest)[1..] == s[1..] + rest;
      RunsThrough(s[1..], p, rest);
    }
  }

  /**
   * Quoting a phrase that holds no quote makes it one literal required term: its own text, trimmed and cut at
   * the phrase limit, even when it is an operator word or looks like a field filter. The hypothesis says that
   * case folding keeps a leading quote, so a quoted text never folds to a field name.
   */
  lemma {:induction false} QuotedIsLiteral(u: Unicode, phrase: string)
    requires '"' !in phrase
    requires forall p: string :: p != "" && p[0] == '"' ==> FieldOf(u.casefold(p)).None?
    ensures var text := Strip(if |phrase| > MAX_PHRASE then phrase[..MAX_PHRASE] else phrase);
            var read := Fold(u, START, RawClauses("\"" + phrase + "\""));
            read.excluded == [] && read.required ==
              if Meaningful(u, text) then [[Clause(text, None, false, false)]] else []
  {
    var s := "\"" + phrase + "\"";
    QuotedIsOneRaw(phrase);
    var raw: Raw := s;
    assert [raw][1..] == [];
    QuotedBuilds(u, phrase);
    assert Fold(u, START, [raw]) == Fold(u, Step(u, START, raw), []) == StepClause(u, START, raw);
  }

  lemma {:induction false} QuotedBuilds(u: Unicode, phrase: string)
    requires '"' !in phrase
    requires forall p: string :: p != "" && p[0] == '"' ==> FieldOf(u.casefold(p)).None?
    ensures var text := Strip(if |phrase| > MAX_PHRASE then phrase[..MAX_PHRASE] else phrase);
            BuildUnsigned(u, "\"" + phrase + "\"", false) ==
              if Meaningful(u, text) then Some(Clause(text, None, false, false)) else None
  {
    var s := "\"" + phrase + "\"";
    assert BodyOf(s) == (phrase, false) by {
      assert LastQuote(s) == |phrase| + 1;
      assert s[1..|phrase| + 1] == phrase;
    }
    var separator := Run(s, NotColon);
    if 0 < separator < |s| {
      var p := s[..separator];
      assert p != "" && p[0] == '"';
      assert FieldOf(u.casefold(p)).None?;
    }
  }

  lemma QuotedIsOneRaw(phrase: string)
    requires '"' !in phrase
    ensures RawClauses("\"" + phrase + "\"") == ["\"" + phrase + "\""]
  {
    var s := "\"" + phrase + "\"";
    assert s[0..] == s && Run(s, IsLetter) == 0;
    assert s[1..] == phrase + "\"";
    RunsThrough(phrase, NotQuote, "\"");
    assert QuotedMatch(s) == |s|;
    assert s[..|s|] == s && s[|s|..] == "";
    assert RawClauses("") == [];
  }
}
