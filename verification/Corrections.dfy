/** The spelling retry of the corpus search: unknown required words give way to their nearest indexed spelling. */
module Corrections {
  import opened Wrappers
  import opened EditDistance
  import opened Query
  import S = Spelling

  datatype Correction = Correction(was: string, now: string)

  predicate Known(vocabulary: seq<S.Row>, term: string) { exists row <- vocabulary :: row.term == term }

  predicate SingleWord(c: Clause) { ' ' !in Strip(c.text) }

  /** A required single word that a retry may replace: alone in its group, and not a prefix search. */
  predicate Correctable(group: Group) { |group| == 1 && SingleWord(group[0]) && !group[0].prefix }

  /** What decides whether a group is looked up at all. */
  predicate Suspect(fold: string -> string, vocabulary: seq<S.Row>, group: Group) {
    Correctable(group) && fold(group[0].text) != "" && !Known(vocabulary, fold(group[0].text))
  }

  /** The candidates for a term, as the lookup scans them. */
  function Scanned(vocabulary: seq<S.Row>, term: string): seq<S.Row> {
    S.Limited(S.WithPrefix(vocabulary, S.SearchPrefix(term)))
  }

  /** The replacement of one group: the best candidate when the word is unknown and there is one, otherwise nothing. */
  ghost predicate Chosen(fold: string -> string, vocabulary: seq<S.Row>, group: Group, choice: Option<string>) {
    if !Suspect(fold, vocabulary, group) then choice == None
    else
      var term := fold(group[0].text);
      match choice
      case None => forall row <- Scanned(vocabulary, term) :: !S.Eligible(term, row)
      case Some(text) => exists best :: S.IsBest(term, Scanned(vocabulary, term), best) && best.term == text
  }

  ghost predicate AllChosen(fold: string -> string, vocabulary: seq<S.Row>, groups: seq<Group>,
                            choices: seq<Option<string>>) {
    |choices| == |groups| && forall i | 0 <= i < |groups| :: Chosen(fold, vocabulary, groups[i], choices[i])
  }

  function Replaced(group: Group, choice: Option<string>): Group {
    match choice
    case None => group
    case Some(text) => [group[0].(text := text)] + group[1..]
  }

  function ReplacedAll(groups: seq<Group>, choices: seq<Option<string>>): seq<Group>
    requires |groups| == |choices|
  {
    seq(|groups|, i requires 0 <= i < |groups| => Replaced(groups[i], choices[i]))
  }

  /** The report of a retry: one entry per replaced word, in query order. */
  function Report(groups: seq<Group>, choices: seq<Option<string>>): seq<Correction>
    requires |groups| == |choices|
  {
    if groups == [] then []
    else
      var n := |groups| - 1;
      Report(groups[..n], choices[..n])
        + match choices[n] case None => [] case Some(text) => [Correction(groups[n][0].text, text)]
  }

  /**
   * The word is looked up by a prefix whose last character has no successor: its range has no upper end the query could
   * be given.
   */
  predicate Unbounded(fold: string -> string, vocabulary: seq<S.Row>, group: Group) {
    && Suspect(fold, vocabulary, group)
    && var prefix := S.SearchPrefix(fold(group[0].text)); prefix != "" && S.Successor(prefix[|prefix| - 1]).None?
  }

  ghost predicate Bounded(fold: string -> string, vocabulary: seq<S.Row>, groups: seq<Group>) {
    forall group <- groups :: !Unbounded(fold, vocabulary, group)
  }

  lemma BoundedGrows(fold: string -> string, vocabulary: seq<S.Row>, groups: seq<Group>, i: nat)
    requires i < |groups| && Bounded(fold, vocabulary, groups[..i]) && !Unbounded(fold, vocabulary, groups[i])
    ensures Bounded(fold, vocabulary, groups[..i + 1])
  {
    assert groups[..i + 1] == groups[..i] + [groups[i]];
  }

  /** A word the retry looks up: required alone, without a blank or an asterisk, folded to something unknown. */
  ghost predicate IsLookedUp(fold: string -> string, vocabulary: seq<S.Row>, group: Group) {
    && |group| == 1 && !group[0].prefix && ' ' !in Strip(group[0].text) && fold(group[0].text) != ""
    && forall row <- vocabulary :: row.term != fold(group[0].text)
  }

  /** The choice for a group: what the vocabulary suggests for a word that is looked up, and otherwise nothing. */
  ghost predicate Decides(fold: string -> string, vocabulary: seq<S.Row>, group: Group, choice: Option<string>) {
    if IsLookedUp(fold, vocabulary, group) then S.Suggests(vocabulary, fold(group[0].text), choice) else choice == None
  }

  /** The lookup of a word fails when the last character it is looked up by has no successor. */
  ghost predicate Fails(fold: string -> string, vocabulary: seq<S.Row>, group: Group) {
    && IsLookedUp(fold, vocabulary, group)
    && var term := fold(group[0].text); term[if |term| >= 5 then 2 else 0] in {'\U{D7FF}', '\U{10FFFF}'}
  }

  lemma LookedUpIsSuspect(fold: string -> string, vocabulary: seq<S.Row>, group: Group)
    ensures IsLookedUp(fold, vocabulary, group) <==> Suspect(fold, vocabulary, group)
    ensures Fails(fold, vocabulary, group) <==> Unbounded(fold, vocabulary, group)
  {
  }

  ghost predicate NoneFails(fold: string -> string, vocabulary: seq<S.Row>, groups: seq<Group>) {
    forall group <- groups :: !Fails(fold, vocabulary, group)
  }

  lemma BoundedIsNoFailure(fold: string -> string, vocabulary: seq<S.Row>, groups: seq<Group>)
    ensures Bounded(fold, vocabulary, groups) <==> NoneFails(fold, vocabulary, groups)
  {
    forall group <- groups ensures Fails(fold, vocabulary, group) <==> Unbounded(fold, vocabulary, group) {
      LookedUpIsSuspect(fold, vocabulary, group);
    }
  }

  lemma ChosenDecides(fold: string -> string, vocabulary: seq<S.Row>, group: Group, choice: Option<string>)
    requires Chosen(fold, vocabulary, group, choice)
    ensures Decides(fold, vocabulary, group, choice)
  {
    LookedUpIsSuspect(fold, vocabulary, group);
    if Suspect(fold, vocabulary, group) {
      S.BestIsSuggested(vocabulary, fold(group[0].text), choice);
    }
  }

  /** The query after a retry: the chosen words in their places, and nothing else changed. */
  ghost predicate Retried(fold: string -> string, vocabulary: seq<S.Row>, groups: seq<Group>, after: seq<Group>,
                          choices: seq<Option<string>>) {
    && |after| == |choices| == |groups|
    && forall i :: 0 <= i < |groups| ==>
         && Decides(fold, vocabulary, groups[i], choices[i])
         && after[i] == match choices[i]
                        case None => groups[i]
                        case Some(text) => [Clause(text, groups[i][0].field, false, groups[i][0].negated)]
  }

  /** One entry for each chosen word, in query order. */
  ghost predicate Reports(groups: seq<Group>, choices: seq<Option<string>>, corrections: seq<Correction>,
                          places: seq<int>)
    requires |choices| == |groups|
  {
    && |places| == |corrections| && (forall i, j :: 0 <= i < j < |places| ==> places[i] < places[j])
    && (forall i :: 0 <= i < |places| ==>
          && 0 <= places[i] < |groups| && choices[places[i]].Some?
          && corrections[i] == Correction(groups[places[i]][0].text, choices[places[i]].value))
    && (forall k :: 0 <= k < |choices| && choices[k].Some? ==> k in places)
  }

  ghost predicate Reported(groups: seq<Group>, choices: seq<Option<string>>, corrections: seq<Correction>) {
    |choices| == |groups| && exists places :: Reports(groups, choices, corrections, places)
  }

  lemma ReportsOneMore(groups: seq<Group>, choices: seq<Option<string>>, corrections: seq<Correction>,
                       places: seq<int>)
    requires |choices| == |groups| > 0 && Reports(groups[..|groups| - 1], choices[..|groups| - 1], corrections, places)
    ensures var n := |groups| - 1;
            match choices[n]
            case None => Reports(groups, choices, corrections, places)
            case Some(text) =>
              Reports(groups, choices, corrections + [Correction(groups[n][0].text, text)], places + [n])
  {
    var n := |groups| - 1;
    assert forall k :: 0 <= k < n ==> choices[..n][k] == choices[k];
    assert forall k :: k in places + [n] <==> k in places || k == n;
  }

  lemma {:induction false} ReportIsExact(groups: seq<Group>, choices: seq<Option<string>>) returns (places: seq<int>)
    requires |choices| == |groups|
    ensures Reports(groups, choices, Report(groups, choices), places)
  {
    places := [];
    if groups != [] {
      var n := |groups| - 1;
      places := ReportIsExact(groups[..n], choices[..n]);
      ReportsOneMore(groups, choices, Report(groups[..n], choices[..n]), places);
      places := places + if choices[n].Some? then [n] else [];
      assert Report(groups[..n], choices[..n]) + [] == Report(groups[..n], choices[..n]);
    }
  }

  /** Choosing for every group and replacing in place is the retry, and the report lists just what it replaced. */
  lemma RetryIsExact(fold: string -> string, vocabulary: seq<S.Row>, groups: seq<Group>, choices: seq<Option<string>>)
    requires AllChosen(fold, vocabulary, groups, choices)
    ensures Retried(fold, vocabulary, groups, ReplacedAll(groups, choices), choices)
    ensures Reported(groups, choices, Report(groups, choices))
  {
    forall i | 0 <= i < |groups| ensures Decides(fold, vocabulary, groups[i], choices[i]) {
      ChosenDecides(fold, vocabulary, groups[i], choices[i]);
    }
    forall i | 0 <= i < |groups| && choices[i].Some?
      ensures Replaced(groups[i], choices[i]) == [Clause(choices[i].value, groups[i][0].field, false,
                                                         groups[i][0].negated)]
    {
      assert groups[i][1..] == [];
    }
    var places := ReportIsExact(groups, choices);
  }

  method ChooseFor(fold: string -> string, vocabulary: seq<S.Row>, group: Group)
    returns (choice: Result<Option<string>, S.ScanError>)
    ensures choice.Ok? ==> Chosen(fold, vocabulary, group, choice.value)
    ensures choice.Ok? ==> Decides(fold, vocabulary, group, choice.value)
    ensures choice.Err? <==> Unbounded(fold, vocabulary, group)
    ensures choice.Err? <==> Fails(fold, vocabulary, group)
  {
    LookedUpIsSuspect(fold, vocabulary, group);
    if !Correctable(group) {
      return Ok(None);
    }
    var original := fold(group[0].text);
    if original == "" || Known(vocabulary, original) {
      return Ok(None);
    }
    choice := S.NearestTerm(vocabulary, original);
  }

  lemma ReportGrows(groups: seq<Group>, choices: seq<Option<string>>, choice: Option<string>)
    requires |choices| < |groups|
    ensures Report(groups[..|choices| + 1], choices + [choice]) ==
            Report(groups[..|choices|], choices)
              + match choice case None => [] case Some(text) => [Correction(groups[|choices|][0].text, text)]
  {
    var n := |choices|;
    assert groups[..n + 1][..n] == groups[..n] && (choices + [choice])[..n] == choices;
  }

  function Patched(required: seq<Group>, i: nat, choice: Option<string>): seq<Group>
    requires i < |required|
  {
    if choice.None? then required else required[i := Replaced(required[i], choice)]
  }

  /** What the loop holds after its first groups. */
  ghost predicate Halfway(fold: string -> string, vocabulary: seq<S.Row>, groups: seq<Group>, required: seq<Group>,
                          corrections: seq<Correction>, choices: seq<Option<string>>) {
    && |choices| <= |groups|
    && AllChosen(fold, vocabulary, groups[..|choices|], choices)
    && required == ReplacedAll(groups[..|choices|], choices) + groups[|choices|..]
    && corrections == Report(groups[..|choices|], choices)
  }

  lemma HalfwayStep(fold: string -> string, vocabulary: seq<S.Row>, groups: seq<Group>, required: seq<Group>,
                    corrections: seq<Correction>, choices: seq<Option<string>>, choice: Option<string>)
    requires Halfway(fold, vocabulary, groups, required, corrections, choices)
    requires |choices| < |groups| && Chosen(fold, vocabulary, groups[|choices|], choice)
    ensures |required| == |groups| && required[|choices|] == groups[|choices|]
    ensures Halfway(fold, vocabulary, groups, Patched(required, |choices|, choice),
                    corrections + (match choice case None => []
                                   case Some(text) => [Correction(groups[|choices|][0].text, text)]),
                    choices + [choice])
  {
    ReportGrows(groups, choices, choice);
    PatchedGrows(groups, choices, choice);
    ChosenGrows(fold, vocabulary, groups, choices, choice);
  }

  lemma ReplacedAt(groups: seq<Group>, choices: seq<Option<string>>, k: nat)
    requires |choices| <= |groups| && k < |groups|
    ensures var n := |choices|;
            var all := ReplacedAll(groups[..n], choices) + groups[n..];
            |all| == |groups| && all[k] == if k < n then Replaced(groups[k], choices[k]) else groups[k]
  {
  }

  lemma PatchedGrows(groups: seq<Group>, choices: seq<Option<string>>, choice: Option<string>)
    requires |choices| < |groups|
    ensures var n := |choices|;
            var required := ReplacedAll(groups[..n], choices) + groups[n..];
            && |required| == |groups| && required[n] == groups[n]
            && Patched(required, n, choice) == ReplacedAll(groups[..n + 1], choices + [choice]) + groups[n + 1..]
  {
    var n := |choices|;
    var required := ReplacedAll(groups[..n], choices) + groups[n..];
    var more := choices + [choice];
    var patched, all := Patched(required, n, choice), ReplacedAll(groups[..n + 1], more) + groups[n + 1..];
    assert |more| == n + 1;
    ReplacedAt(groups, choices, n);
    forall k | 0 <= k < |groups| ensures |patched| == |all| == |groups| && patched[k] == all[k] {
      ReplacedAt(groups, choices, k);
      ReplacedAt(groups, more, k);
    }
  }

  lemma ChosenGrows(fold: string -> string, vocabulary: seq<S.Row>, groups: seq<Group>, choices: seq<Option<string>>,
                    choice: Option<string>)
    requires |choices| < |groups| && AllChosen(fold, vocabulary, groups[..|choices|], choices)
             && Chosen(fold, vocabulary, groups[|choices|], choice)
    ensures AllChosen(fold, vocabulary, groups[..|choices| + 1], choices + [choice])
  {
  }

  lemma HalfwayStarts(fold: string -> string, vocabulary: seq<S.Row>, groups: seq<Group>)
    ensures Halfway(fold, vocabulary, groups, groups, [], [])
  {
    assert groups[0..] == groups && groups[..0] == [];
  }

  lemma HalfwayEnds(fold: string -> string, vocabulary: seq<S.Row>, groups: seq<Group>, required: seq<Group>,
                    corrections: seq<Correction>, choices: seq<Option<string>>)
    requires Halfway(fold, vocabulary, groups, required, corrections, choices) && |choices| == |groups|
    ensures AllChosen(fold, vocabulary, groups, choices) && required == ReplacedAll(groups, choices)
            && corrections == Report(groups, choices)
  {
    assert groups[..|choices|] == groups && groups[|choices|..] == [];
  }

  /** One turn of the retry: the choice for one group, replaced in place and reported. */
  method CorrectGroup(fold: string -> string, vocabulary: seq<S.Row>, groups: seq<Group>, i: nat, required0: seq<Group>,
                      corrections0: seq<Correction>, ghost choices0: seq<Option<string>>)
    returns (refused: Option<S.ScanError>, required: seq<Group>, corrections: seq<Correction>,
             ghost choices: seq<Option<string>>)
    requires i < |groups| && |choices0| == i && Halfway(fold, vocabulary, groups, required0, corrections0, choices0)
    ensures refused.Some? <==> Unbounded(fold, vocabulary, groups[i])
    ensures refused.None? ==> |choices| == i + 1 && Halfway(fold, vocabulary, groups, required, corrections, choices)
  {
    refused, required, corrections, choices := None, required0, corrections0, choices0;
    var choice := ChooseFor(fold, vocabulary, groups[i]);
    if choice.Err? {
      return Some(choice.error), required, corrections, choices;
    }
    HalfwayStep(fold, vocabulary, groups, required, corrections, choices, choice.value);
    choices := choices + [choice.value];
    if choice.value.Some? {
      corrections := corrections + [Correction(required[i][0].text, choice.value.value)];
      required := required[i := Replaced(required[i], choice.value)];
    } else {
      assert corrections + [] == corrections;
    }
  }

  /** Replaces what it may in place; everything else of the query is left as it was. */
  method CorrectTerms(fold: string -> string, vocabulary: seq<S.Row>, q: ParsedQuery)
    returns (r: Result<ParsedQuery, S.ScanError>, corrections: seq<Correction>, ghost choices: seq<Option<string>>)
    ensures r.Ok? ==>
              && AllChosen(fold, vocabulary, q.required, choices)
              && r.value == ParsedQuery(ReplacedAll(q.required, choices), q.excluded)
              && corrections == Report(q.required, choices)
    ensures r.Ok? ==>
              && Retried(fold, vocabulary, q.required, r.value.required, choices) && r.value.excluded == q.excluded
              && Reported(q.required, choices, corrections)
    ensures r.Ok? <==> NoneFails(fold, vocabulary, q.required)
  {
    var required := q.required;
    corrections, choices := [], [];
    BoundedIsNoFailure(fold, vocabulary, q.required);
    HalfwayStarts(fold, vocabulary, q.required);
    for i := 0 to |q.required|
      invariant |choices| == i && Halfway(fold, vocabulary, q.required, required, corrections, choices)
      invariant Bounded(fold, vocabulary, q.required[..i])
    {
      var refused;
      refused, required, corrections, choices :=
        CorrectGroup(fold, vocabulary, q.required, i, required, corrections, choices);
      if refused.Some? {
        assert q.required[i] in q.required;
        return Err(refused.value), corrections, choices;
      }
      BoundedGrows(fold, vocabulary, q.required, i);
    }
    assert q.required[..|q.required|] == q.required;
    HalfwayEnds(fold, vocabulary, q.required, required, corrections, choices);
    RetryIsExact(fold, vocabulary, q.required, choices);
    r := Ok(ParsedQuery(required, q.excluded));
  }

  lemma {:induction false} ScannedIsKnown(vocabulary: seq<S.Row>, prefix: string, row: S.Row)
    requires row in S.WithPrefix(vocabulary, prefix)
    ensures row in vocabulary
  {
    if vocabulary != [] && row != vocabulary[|vocabulary| - 1] {
      ScannedIsKnown(vocabulary[..|vocabulary| - 1], prefix, row);
    }
  }

  /**
   * Correcting twice is correcting once, when the vocabulary holds folded terms: a replacement is a known word, and a
   * word left alone for want of a candidate is left alone again.
   */
  lemma CorrectionIsStable(fold: string -> string, vocabulary: seq<S.Row>, group: Group, choice: Option<string>,
                           again: Option<string>)
    requires forall row <- vocabulary :: fold(row.term) == row.term
    requires Chosen(fold, vocabulary, group, choice) && Chosen(fold, vocabulary, Replaced(group, choice), again)
    ensures Replaced(Replaced(group, choice), again) == Replaced(group, choice)
  {
    if choice.Some? {
      var term := fold(group[0].text);
      var best :| S.IsBest(term, Scanned(vocabulary, term), best) && best.term == choice.value;
      ScannedIsKnown(vocabulary, S.SearchPrefix(term), best);
    }
  }
}
