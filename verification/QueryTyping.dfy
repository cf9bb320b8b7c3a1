/** Writing a query down in the search syntax, and the proof that the parser reads it back. */
module QueryTyping {
  import opened Wrappers
  import opened Query
  import opened QueryLaws

  // ---------------------------------------------------------------- what is typed

  /** The name by which a column is filtered. */
  function FieldName(c: Column): string {
    match c
    case Title => "title"
    case Abstract => "abstract"
    case Authors => "authors"
    case Categories => "categories"
  }

  /** Every clause can be typed with its text in quotes: [-][field:]"text"[*]. */
  function TypedUnsigned(c: Clause): string {
    (if c.field.Some? then FieldName(c.field.value) + ":" else "") + "\"" + c.text + "\"" + if c.prefix then "*" else ""
  }

  function Typed(c: Clause): Raw { (if c.negated then "-" else "") + TypedUnsigned(c) }

  /** Words with a blank between them. */
  function Spaced(words: seq<string>): string {
    if words == [] then "" else if |words| == 1 then words[0] else words[0] + " " + Spaced(words[1..])
  }

  /** The words of a group: its clauses with "or" between them. */
  function GroupWords(group: seq<Clause>): seq<Raw> {
    if group == [] then []
    else if |group| == 1 then [Typed(group[0])]
    else [Typed(group[0]), "or"] + GroupWords(group[1..])
  }

  function ClauseWords(clauses: seq<Clause>): seq<Raw> {
    if clauses == [] then [] else [Typed(clauses[0])] + ClauseWords(clauses[1..])
  }

  function AllWords(groups: seq<Group>): seq<Raw> {
    if groups == [] then [] else GroupWords(groups[0]) + AllWords(groups[1..])
  }

  function TypedQuery(q: ParsedQuery): string { Spaced(AllWords(q.required) + ClauseWords(q.excluded)) }

  /** What can be typed between quotes: text that the parser would leave alone. */
  ghost predicate Typable(u: Unicode, c: Clause) { ValidText(u, c.text) && '"' !in c.text }

  /** Case folding leaves the field names alone and keeps a leading quote. */
  ghost predicate Folds(u: Unicode) {
    && (forall c: Column :: u.casefold(FieldName(c)) == FieldName(c))
    && (forall p: string :: p != "" && p[0] == '"' ==> FieldOf(u.casefold(p)).None?)
  }

  // ---------------------------------------------------------------- one word

  lemma FieldLetters(c: Column)
    ensures forall i :: 0 <= i < |FieldName(c)| ==> IsLetter(FieldName(c)[i]) && NotColon(FieldName(c)[i])
    ensures 5 <= |FieldName(c)| && FieldOf(FieldName(c)) == Some(c)
  {
  }

  /** The body of a typed clause: its text, and whether a star follows it. */
  lemma TypedBody(text: string, star: string)
    requires '"' !in text && (star == "" || star == "*")
    ensures BodyOf("\"" + text + "\"" + star) == (text, star == "*")
  {
    var s := "\"" + text + "\"" + star;
    assert s[|text| + 1] == '"' && s[1..|text| + 1] == text;
    if star == "*" {
      assert s[|s| - 1] == '*' && s[..|s| - 1] == "\"" + text + "\"";
    }
    assert LastQuote(s) == |text| + 1;
  }

  function Quoted(c: Clause): string { "\"" + c.text + "\"" + if c.prefix then "*" else "" }

  lemma BodyBuilds(u: Unicode, c: Clause)
    requires Typable(u, c)
    ensures var (body, prefix) := BodyOf(Quoted(c));
            body == c.text && prefix == c.prefix && |body| <= MAX_PHRASE && Strip(body) == body && Meaningful(u, body)
  {
    TypedBody(c.text, if c.prefix then "*" else "");
  }

  lemma FieldSplits(name: string, quoted: string)
    requires forall i :: 0 <= i < |name| ==> NotColon(name[i])
    ensures var s := name + (":" + quoted);
            Run(s, NotColon) == |name| < |s| && s[..|name|] == name && s[|name| + 1..] == quoted
  {
    RunsThrough(name, NotColon, ":" + quoted);
  }

  lemma FieldedBuilds(u: Unicode, c: Clause, negated: bool)
    requires Folds(u) && Typable(u, c) && c.field.Some?
    ensures BuildUnsigned(u, FieldName(c.field.value) + (":" + Quoted(c)), negated) == Some(c.(negated := negated))
  {
    FieldLetters(c.field.value);
    FieldSplits(FieldName(c.field.value), Quoted(c));
    BodyBuilds(u, c);
  }

  lemma PlainBuilds(u: Unicode, c: Clause, negated: bool)
    requires Folds(u) && Typable(u, c) && c.field.None?
    ensures BuildUnsigned(u, Quoted(c), negated) == Some(c.(negated := negated))
  {
    var quoted := Quoted(c);
    var separator := Run(quoted, NotColon);
    if 0 < separator < |quoted| {
      var p := quoted[..separator];
      assert p != "" && p[0] == '"';
    }
    BodyBuilds(u, c);
  }

  lemma TypedBuilds(u: Unicode, c: Clause, negated: bool)
    requires Folds(u) && Typable(u, c)
    ensures BuildUnsigned(u, TypedUnsigned(c), negated) == Some(c.(negated := negated))
  {
    if c.field.Some? {
      assert TypedUnsigned(c) == FieldName(c.field.value) + (":" + Quoted(c));
      FieldedBuilds(u, c, negated);
    } else {
      assert TypedUnsigned(c) == Quoted(c);
      PlainBuilds(u, c, negated);
    }
  }

  /** A word with a quote in it is no operator. */
  lemma QuoteIsNoKeyword(raw: string, i: nat)
    requires i < |raw| && raw[i] == '"'
    ensures KeywordOf(raw) == NoKeyword
  {
  }

  lemma TypedStarts(c: Clause)
    ensures Typed(c) != "" && !IsSpace(Typed(c)[0])
    ensures if c.negated then Typed(c)[0] == '-' && Typed(c)[1..] == TypedUnsigned(c)
            else Typed(c) == TypedUnsigned(c) && Typed(c)[0] != '-' && Typed(c)[0] != '+'
    ensures exists i :: 0 <= i < |Typed(c)| && Typed(c)[i] == '"'
  {
    var sign := if c.negated then "-" else "";
    var prefix := if c.field.Some? then FieldName(c.field.value) + ":" else "";
    if c.field.Some? {
      FieldLetters(c.field.value);
    }
    assert Typed(c)[|sign| + |prefix|] == '"';
  }

  /** A typed clause is built as it was meant. */
  lemma TypedClause(u: Unicode, c: Clause)
    requires Folds(u) && Typable(u, c)
    ensures BuildClause(u, Typed(c)) == Some(c) && KeywordOf(Typed(c)) == NoKeyword
  {
    TypedStarts(c);
    TypedBuilds(u, c, c.negated);
    var i :| 0 <= i < |Typed(c)| && Typed(c)[i] == '"';
    QuoteIsNoKeyword(Typed(c), i);
  }

  // ---------------------------------------------------------------- the words of a query

  lemma Drops(a: string, b: string)
    ensures (a + b)[|a|..] == b
    ensures forall i :: 0 <= i < |b| ==> (a + b)[|a| + i] == b[i]
  {
  }

  /** A match that opens somewhere runs to the next quote, and over a star behind it. */
  lemma MatchOf(s: string, open: nat, close: nat)
    requires open < close < |s| && s[open] == '"' && Run(s[open + 1..], NotQuote) == close - open - 1
    ensures QuotedFrom(s, open) == close + if close + 1 < |s| && s[close + 1] == '*' then 2 else 1
  {
  }

  /** What follows the sign: a field, perhaps, and the quoted text. */
  function Fielded(name: string, quoted: string): string { if name == "" then quoted else name + (":" + quoted) }

  function Opening(name: string): nat { if name == "" then 0 else |name| + 1 }

  lemma FieldedParts(name: string, quoted: string)
    requires (forall i :: 0 <= i < |name| ==> IsLetter(name[i])) && quoted != "" && quoted[0] == '"'
    ensures var s := Fielded(name, quoted);
            && Run(s, IsLetter) == |name| && (name != "" ==> |name| < |s| && s[|name|] == ':')
            && Opening(name) + |quoted| == |s| && s[Opening(name)..] == quoted
  {
    if name != "" {
      RunsThrough(name, IsLetter, ":" + quoted);
      Drops(name, ":" + quoted);
      Drops(name + ":", quoted);
      assert name + (":" + quoted) == (name + ":") + quoted;
    }
  }

  lemma QuotedParts(text: string, tail: string)
    requires '"' !in text
    ensures var quoted := "\"" + (text + ("\"" + tail));
            && |quoted| == |text| + 2 + |tail| && quoted[0] == '"' && Run(quoted[1..], NotQuote) == |text|
            && quoted[|text| + 1] == '"' && quoted[|text| + 2..] == tail
  {
    var quoted := "\"" + (text + ("\"" + tail));
    Drops("\"", text + ("\"" + tail));
    Drops(text, "\"" + tail);
    assert quoted[1..] == text + ("\"" + tail);
    RunsThrough(text, NotQuote, "\"" + tail);
  }

  lemma FieldedMatch(name: string, text: string, tail: string)
    requires (forall i :: 0 <= i < |name| ==> IsLetter(name[i])) && '"' !in text
    ensures var s := Fielded(name, "\"" + (text + ("\"" + tail)));
            && UnsignedMatch(s) == Opening(name) + |text| + (if tail != "" && tail[0] == '*' then 3 else 2)
            && s[0] != '+' && s[0] != '-'
  {
    var quoted := "\"" + (text + ("\"" + tail));
    var s, open := Fielded(name, quoted), Opening(name);
    QuotedParts(text, tail);
    FieldedParts(name, quoted);
    assert s[open..][0] == '"' && s[open..][1..] == s[open + 1..];
    assert forall i :: 0 <= i < |quoted| ==> s[open + i] == s[open..][i];
    assert OpensAt(s) == open;
    MatchOf(s, open, open + 1 + |text|);
  }

  lemma MatchBySign(s: string, sign: nat, rest: string, n: nat)
    requires sign == (if s != "" && (s[0] == '+' || s[0] == '-') then 1 else 0) && s[sign..] == rest
    requires UnsignedMatch(rest) == n
    ensures QuotedMatch(s) == if n == 0 then 0 else sign + n
  {
  }

  /** A sign in front moves a match by one. */
  lemma SignShifts(f: string, n: nat)
    requires f != "" && f[0] != '+' && f[0] != '-' && UnsignedMatch(f) == n > 0
    ensures QuotedMatch(f) == n && QuotedMatch("-" + f) == 1 + n
  {
    assert f[0..] == f && ("-" + f)[1..] == f;
    MatchBySign(f, 0, f, n);
    MatchBySign("-" + f, 1, f, n);
  }

  function NameOf(c: Clause): string { if c.field.Some? then FieldName(c.field.value) else "" }

  lemma UnsignedIs(c: Clause, rest: string)
    ensures var quoted := "\"" + (c.text + ("\"" + ((if c.prefix then "*" else "") + rest)));
            && TypedUnsigned(c) + rest == Fielded(NameOf(c), quoted)
            && |TypedUnsigned(c)| == Opening(NameOf(c)) + |c.text| + if c.prefix then 3 else 2
  {
    var star := if c.prefix then "*" else "";
    var quoted := "\"" + (c.text + ("\"" + (star + rest)));
    var plain := "\"" + c.text + "\"" + star;
    assert plain + rest == quoted;
    if c.field.Some? {
      var name := FieldName(c.field.value);
      assert TypedUnsigned(c) == name + ":" + plain;
      assert name + ":" + plain + rest == name + (":" + quoted);
    } else {
      assert TypedUnsigned(c) == plain;
    }
  }

  lemma TypedIs(c: Clause, rest: string)
    ensures var quoted := "\"" + (c.text + ("\"" + ((if c.prefix then "*" else "") + rest)));
            && Typed(c) + rest == (if c.negated then "-" + Fielded(NameOf(c), quoted) else Fielded(NameOf(c), quoted))
            && |Typed(c)| == (if c.negated then 1 else 0) + Opening(NameOf(c)) + |c.text| + if c.prefix then 3 else 2
  {
    UnsignedIs(c, rest);
    assert Typed(c) + rest == (if c.negated then "-" else "") + (TypedUnsigned(c) + rest);
  }

  /** A typed clause is one match of the clause pattern, whatever follows it after a blank. */
  lemma TypedMatch(c: Clause, rest: string)
    requires '"' !in c.text && (rest == "" || rest[0] == ' ')
    ensures QuotedMatch(Typed(c) + rest) == |Typed(c)|
  {
    var tail := (if c.prefix then "*" else "") + rest;
    TypedIs(c, rest);
    if c.field.Some? {
      FieldLetters(c.field.value);
    }
    FieldedMatch(NameOf(c), c.text, tail);
    var f := Fielded(NameOf(c), "\"" + (c.text + ("\"" + tail)));
    SignShifts(f, UnsignedMatch(f));
  }

  lemma {:induction false} RawAfterBlank(rest: string)
    ensures RawClauses(" " + rest) == RawClauses(rest)
  {
    assert (" " + rest)[1..] == rest;
  }

  /** A word without quotes: an operator, or a term as it is usually typed. */
  predicate Bare(word: string) { word != "" && forall c <- word :: !IsSpace(c) && c != '"' }

  /** A word of a typed query: a clause in quotes, or a bare word. */
  ghost predicate IsWord(word: string) {
    Bare(word) || exists c: Clause :: '"' !in c.text && word == Typed(c)
  }

  lemma NoQuoteNoMatch(s: string, n: nat)
    requires n <= |s| && (forall i :: 0 <= i < n ==> s[i] != '"') && (n < |s| ==> s[n] == ' ')
    ensures UnsignedMatch(s) == 0
  {
  }

  /** A bare word is one match of the clause pattern, up to the next blank. */
  lemma BareLength(word: string, rest: string)
    requires Bare(word) && (rest == "" || rest[0] == ' ')
    ensures ClauseLength(word + rest) == |word|
  {
    var s := word + rest;
    var sign := if s[0] == '+' || s[0] == '-' then 1 else 0;
    Drops(word, rest);
    forall i | 0 <= i < |word| - sign ensures s[sign..][i] != '"' {
      assert word[sign + i] in word;
    }
    NoQuoteNoMatch(s[sign..], |word| - sign);
    forall i | 0 <= i < |word| ensures IsVisible(word[i]) {
      assert word[i] in word;
    }
    RunsThrough(word, IsVisible, rest);
  }

  lemma WordLength(word: string, rest: string)
    requires IsWord(word) && (rest == "" || rest[0] == ' ')
    ensures word != "" && !IsSpace(word[0]) && ClauseLength(word + rest) == |word|
  {
    if Bare(word) {
      BareLength(word, rest);
      assert word[0] in word;
    } else {
      var c: Clause :| '"' !in c.text && word == Typed(c);
      TypedMatch(c, rest);
      TypedStarts(c);
    }
  }

  /** Words with blanks between them are the matches of the clause pattern. */
  lemma {:induction false} SpacedWords(words: seq<Raw>)
    requires forall word <- words :: IsWord(word)
    ensures RawClauses(Spaced(words)) == words
  {
    if words == [] {
    } else {
      var word, rest := words[0], if |words| == 1 then "" else " " + Spaced(words[1..]);
      var s := word + rest;
      assert Spaced(words) == s;
      assert word in words && IsWord(word);
      WordLength(word, rest);
      assert s[..|word|] == word && s[|word|..] == rest && s[0] == word[0];
      assert RawClauses(s) == [word] + RawClauses(rest);
      if |words| > 1 {
        RawAfterBlank(Spaced(words[1..]));
        SpacedWords(words[1..]);
      }
      assert words == [word] + words[1..];
    }
  }

  // ---------------------------------------------------------------- bare terms

  /** A word without quotes, colons and blanks that begins with no sign and ends with no star. */
  predicate IsTerm(word: string) {
    && Bare(word) && word[0] != '+' && word[0] != '-' && word[|word| - 1] != '*' && forall c <- word :: c != ':'
  }

  function Cut(word: string): string { if |word| <= 200 then word else word[..200] }

  lemma BareBody(word: string, star: bool)
    requires IsTerm(word)
    ensures BodyOf(word + if star then "*" else "") == (word, star)
    ensures Strip(Cut(word)) == Cut(word)
  {
    assert word[0] in word;
    var s := word + if star then "*" else "";
    assert s[0] == word[0] && if star then s[..|s| - 1] == word else s == word;
    assert EndsWithStar(s) == star && BodyOf(s) == (word, star);
    assert Cut(word)[0] in word && Cut(word)[|Cut(word)| - 1] in word;
  }

  /** What a clause is built as once its field is known. */
  function BuiltFrom(u: Unicode, field: Option<Column>, rest: string, negated: bool): Option<Clause> {
    var (body, prefix) := BodyOf(rest);
    var text := Strip(Cut(body));
    if Meaningful(u, text) then Some(Clause(text, field, prefix, negated)) else None
  }

  lemma FieldedRest(u: Unicode, c: Column, rest: string, negated: bool)
    requires Folds(u)
    ensures BuildUnsigned(u, FieldName(c) + (":" + rest), negated) == BuiltFrom(u, Some(c), rest, negated)
  {
    FieldLetters(c);
    FieldSplits(FieldName(c), rest);
  }

  lemma PlainRest(u: Unicode, rest: string, negated: bool)
    requires forall i :: 0 <= i < |rest| ==> NotColon(rest[i])
    ensures BuildUnsigned(u, rest, negated) == BuiltFrom(u, None, rest, negated)
  {
    assert rest + "" == rest;
    RunsThrough(rest, NotColon, "");
  }

  /** A bare term without its sign. */
  function Unsigned(field: Option<Column>, word: string, star: bool): string {
    var body := word + if star then "*" else "";
    if field.Some? then FieldName(field.value) + (":" + body) else body
  }

  lemma BareUnsigned(u: Unicode, field: Option<Column>, word: string, star: bool, negated: bool)
    requires Folds(u) && IsTerm(word)
    ensures BuildUnsigned(u, Unsigned(field, word, star), negated) ==
            if Meaningful(u, Cut(word)) then Some(Clause(Cut(word), field, star, negated)) else None
  {
    var body := word + if star then "*" else "";
    BareBody(word, star);
    if field.Some? {
      FieldedRest(u, field.value, body, negated);
    } else {
      forall i | 0 <= i < |body| ensures NotColon(body[i]) {
        if i < |word| {
          assert word[i] in word;
        }
      }
      PlainRest(u, body, negated);
    }
  }

  lemma UnsignedStarts(field: Option<Column>, word: string, star: bool)
    requires IsTerm(word)
    ensures var s := Unsigned(field, word, star); s != "" && s[0] != '+' && s[0] != '-'
  {
    if field.Some? {
      FieldLetters(field.value);
    }
  }

  /**
   * A bare term is read as it stands: cut after 200 characters, excluded under a minus, wanted under a plus or no sign,
   * a prefix before a star, in the column of its field; and dropped when nothing in it can be searched for.
   */
  lemma BareTermIsRead(u: Unicode, sign: string, field: Option<Column>, word: string, star: bool)
    requires Folds(u) && IsTerm(word) && sign in {"", "+", "-"}
    ensures BuildClause(u, sign + Unsigned(field, word, star)) ==
            if Meaningful(u, Cut(word)) then Some(Clause(Cut(word), field, star, sign == "-")) else None
  {
    var unsigned := Unsigned(field, word, star);
    BareUnsigned(u, field, word, star, sign == "-");
    UnsignedStarts(field, word, star);
    if sign == "" {
      assert sign + unsigned == unsigned;
    } else {
      Drops(sign, unsigned);
    }
  }

  // ---------------------------------------------------------------- what the parser makes of them

  ghost predicate AllTypable(u: Unicode, clauses: seq<Clause>, negated: bool) {
    forall c <- clauses :: Typable(u, c) && c.negated == negated
  }

  ghost predicate GroupsTypable(u: Unicode, groups: seq<Group>) {
    forall group <- groups :: AllTypable(u, group, false)
  }

  lemma StepTyped(u: Unicode, s: State, c: Clause)
    requires Folds(u) && Typable(u, c) && !s.pendingNot
    ensures Step(u, s, Typed(c)) == Place(s, c)
  {
    TypedClause(u, c);
  }

  lemma ReadFirst(u: Unicode, before: seq<Group>, excluded: seq<Clause>, c: Clause)
    requires Folds(u) && Typable(u, c) && !c.negated
    ensures Step(u, State(before, excluded, false, false), Typed(c)) == State(before + [[c]], excluded, false, false)
  {
    StepTyped(u, State(before, excluded, false, false), c);
  }

  lemma ReadNext(u: Unicode, before: seq<Group>, group: Group, longer: Group, excluded: seq<Clause>, c: Clause)
    requires Folds(u) && Typable(u, c) && !c.negated && longer == group + [c]
    ensures Step(u, State(before + [group], excluded, true, false), Typed(c)) ==
            State(before + [longer], excluded, false, false)
  {
    var s := State(before + [group], excluded, true, false);
    StepTyped(u, s, c);
    assert s.required[..|s.required| - 1] == before && s.required[|s.required| - 1] == group;
  }

  lemma ReadOr(u: Unicode, required: seq<Group>, excluded: seq<Clause>)
    requires required != []
    ensures Step(u, State(required, excluded, false, false), "or") == State(required, excluded, true, false)
  {
  }

  lemma ReadMinus(u: Unicode, required: seq<Group>, excluded: seq<Clause>, c: Clause)
    requires Folds(u) && Typable(u, c) && c.negated
    ensures Step(u, State(required, excluded, false, false), Typed(c)) == State(required, excluded + [c], false, false)
  {
    StepTyped(u, State(required, excluded, false, false), c);
  }

  // ---- whole queries, by what single words do

  /** The fold of a step that stands for the parser's. */
  function Folded(step: (State, Raw) -> State, s: State, words: seq<Raw>): State
    decreases |words|
  {
    if words == [] then s else Folded(step, step(s, words[0]), words[1..])
  }

  lemma {:induction false} FoldedIsFold(u: Unicode, step: (State, Raw) -> State, s: State, words: seq<Raw>)
    requires forall t: State, word: Raw :: step(t, word) == Step(u, t, word)
    ensures Folded(step, s, words) == Fold(u, s, words)
    decreases |words|
  {
    if words != [] {
      FoldedIsFold(u, step, step(s, words[0]), words[1..]);
    }
  }

  lemma {:induction false} FoldedInTwo(step: (State, Raw) -> State, s: State, a: seq<Raw>, b: seq<Raw>)
    ensures Folded(step, s, a + b) == Folded(step, Folded(step, s, a), b)
    decreases |a|
  {
    if a == [] {
      assert a + b == b;
    } else {
      assert (a + b)[1..] == a[1..] + b;
      FoldedInTwo(step, step(s, a[0]), a[1..], b);
    }
  }

  lemma FoldedOne(step: (State, Raw) -> State, s: State, word: Raw, rest: seq<Raw>)
    ensures Folded(step, s, [word] + rest) == Folded(step, step(s, word), rest)
  {
    assert ([word] + rest)[1..] == rest;
  }

  /** What single words do: the first of a group, an alternative after "or", the "or", an exclusion. */
  ghost predicate ReadsWords(u: Unicode, step: (State, Raw) -> State) {
    && (forall before: seq<Group>, excluded: seq<Clause>, c: Clause | Typable(u, c) && !c.negated ::
          step(State(before, excluded, false, false), Typed(c)) == State(before + [[c]], excluded, false, false))
    && (forall before: seq<Group>, group: Group, excluded: seq<Clause>, c: Clause | Typable(u, c) && !c.negated ::
          step(State(before + [group], excluded, true, false), Typed(c)) ==
          State(before + [group + [c]], excluded, false, false))
    && (forall required: seq<Group>, excluded: seq<Clause> | required != [] ::
          step(State(required, excluded, false, false), "or") == State(required, excluded, true, false))
    && (forall required: seq<Group>, excluded: seq<Clause>, c: Clause | Typable(u, c) && c.negated ::
          step(State(required, excluded, false, false), Typed(c)) == State(required, excluded + [c], false, false))
  }

  lemma ParserReadsWords(u: Unicode, step: (State, Raw) -> State)
    requires Folds(u) && forall t: State, word: Raw :: step(t, word) == Step(u, t, word)
    ensures ReadsWords(u, step)
  {
    forall before: seq<Group>, excluded: seq<Clause>, c: Clause | Typable(u, c) && !c.negated
      ensures step(State(before, excluded, false, false), Typed(c)) == State(before + [[c]], excluded, false, false)
    {
      ReadFirst(u, before, excluded, c);
    }
    forall before: seq<Group>, group: Group, excluded: seq<Clause>, c: Clause | Typable(u, c) && !c.negated
      ensures step(State(before + [group], excluded, true, false), Typed(c)) ==
              State(before + [group + [c]], excluded, false, false)
    {
      ReadNext(u, before, group, group + [c], excluded, c);
    }
    forall required: seq<Group>, excluded: seq<Clause> | required != []
      ensures step(State(required, excluded, false, false), "or") == State(required, excluded, true, false)
    {
      ReadOr(u, required, excluded);
    }
    forall required: seq<Group>, excluded: seq<Clause>, c: Clause | Typable(u, c) && c.negated
      ensures step(State(required, excluded, false, false), Typed(c)) == State(required, excluded + [c], false, false)
    {
      ReadMinus(u, required, excluded, c);
    }
  }

  /** "or" and a term. */
  lemma MoreStep(u: Unicode, step: (State, Raw) -> State, before: seq<Group>, group: Group, c: Clause,
                 excluded: seq<Clause>, tail: seq<Raw>)
    requires ReadsWords(u, step) && Typable(u, c) && !c.negated
    ensures Folded(step, State(before + [group], excluded, false, false), ["or"] + ([Typed(c)] + tail)) ==
            Folded(step, State(before + [group + [c]], excluded, false, false), tail)
  {
    var s := State(before + [group], excluded, false, false);
    FoldedOne(step, s, "or", [Typed(c)] + tail);
    FoldedOne(step, State(before + [group], excluded, true, false), Typed(c), tail);
  }

  lemma FoldedNone(step: (State, Raw) -> State, s: State)
    ensures Folded(step, s, []) == s
  {
  }

  lemma GroupWordsSplit(group: seq<Clause>)
    requires group != []
    ensures GroupWords(group) == [Typed(group[0])] + if |group| == 1 then [] else ["or"] + GroupWords(group[1..])
  {
  }

  /** The alternatives after the first ones of a group. */
  lemma {:induction false} ReadMore(u: Unicode, step: (State, Raw) -> State, before: seq<Group>, group: Group,
                                    more: seq<Clause>, excluded: seq<Clause>, all: Group)
    requires ReadsWords(u, step) && more != [] && AllTypable(u, more, false) && all == group + more
    ensures Folded(step, State(before + [group], excluded, false, false), ["or"] + GroupWords(more)) ==
            State(before + [all], excluded, false, false)
    decreases |more|
  {
    var c, rest, longer: Group := more[0], more[1..], group + [more[0]];
    GroupWordsSplit(more);
    if rest == [] {
      assert all == longer;
      MoreStep(u, step, before, group, c, excluded, []);
      FoldedNone(step, State(before + [longer], excluded, false, false));
    } else {
      assert all == longer + rest;
      MoreStep(u, step, before, group, c, excluded, ["or"] + GroupWords(rest));
      ReadMore(u, step, before, longer, rest, excluded, all);
    }
  }

  lemma FirstStep(u: Unicode, step: (State, Raw) -> State, before: seq<Group>, c: Clause, excluded: seq<Clause>,
                  tail: seq<Raw>)
    requires ReadsWords(u, step) && Typable(u, c) && !c.negated
    ensures Folded(step, State(before, excluded, false, false), [Typed(c)] + tail) ==
            Folded(step, State(before + [[c]], excluded, false, false), tail)
  {
    FoldedOne(step, State(before, excluded, false, false), Typed(c), tail);
  }

  lemma ReadAlone(u: Unicode, step: (State, Raw) -> State, before: seq<Group>, group: Group, excluded: seq<Clause>)
    requires ReadsWords(u, step) && |group| == 1 && Typable(u, group[0]) && !group[0].negated
    ensures Folded(step, State(before, excluded, false, false), [Typed(group[0])]) ==
            State(before + [group], excluded, false, false)
  {
    assert group == [group[0]] && [Typed(group[0])] + [] == [Typed(group[0])];
    FirstStep(u, step, before, group[0], excluded, []);
    FoldedNone(step, State(before + [group], excluded, false, false));
  }

  lemma ReadSeveral(u: Unicode, step: (State, Raw) -> State, before: seq<Group>, first: Group, rest: seq<Clause>,
                    all: Group, excluded: seq<Clause>)
    requires ReadsWords(u, step) && |first| == 1 && Typable(u, first[0]) && !first[0].negated
    requires rest != [] && AllTypable(u, rest, false) && all == first + rest
    ensures Folded(step, State(before, excluded, false, false), [Typed(first[0])] + (["or"] + GroupWords(rest))) ==
            State(before + [all], excluded, false, false)
  {
    FirstStep(u, step, before, first[0], excluded, ["or"] + GroupWords(rest));
    assert first == [first[0]];
    ReadMore(u, step, before, first, rest, excluded, all);
  }

  lemma ReadGroup(u: Unicode, step: (State, Raw) -> State, before: seq<Group>, group: Group, excluded: seq<Clause>)
    requires ReadsWords(u, step) && AllTypable(u, group, false)
    ensures Folded(step, State(before, excluded, false, false), GroupWords(group)) ==
            State(before + [group], excluded, false, false)
  {
    GroupWordsSplit(group);
    if |group| == 1 {
      ReadAlone(u, step, before, group, excluded);
    } else {
      assert group == [group[0]] + group[1..];
      ReadSeveral(u, step, before, [group[0]], group[1..], group, excluded);
    }
  }

  lemma {:induction false} ReadGroups(u: Unicode, step: (State, Raw) -> State, before: seq<Group>, groups: seq<Group>)
    requires ReadsWords(u, step) && GroupsTypable(u, groups)
    ensures Folded(step, State(before, [], false, false), AllWords(groups)) == State(before + groups, [], false, false)
    decreases |groups|
  {
    if groups == [] {
      assert before + groups == before;
      FoldedNone(step, State(before, [], false, false));
    } else {
      var more := before + [groups[0]];
      assert more + groups[1..] == before + groups;
      ReadGroup(u, step, before, groups[0], []);
      FoldedInTwo(step, State(before, [], false, false), GroupWords(groups[0]), AllWords(groups[1..]));
      ReadGroups(u, step, more, groups[1..]);
    }
  }

  lemma {:induction false} ReadExcluded(u: Unicode, step: (State, Raw) -> State, required: seq<Group>,
                                        before: seq<Clause>, excluded: seq<Clause>)
    requires ReadsWords(u, step) && AllTypable(u, excluded, true)
    ensures Folded(step, State(required, before, false, false), ClauseWords(excluded)) ==
            State(required, before + excluded, false, false)
    decreases |excluded|
  {
    if excluded == [] {
      assert before + excluded == before;
    } else {
      var c, rest := excluded[0], excluded[1..];
      ReadExcluded(u, step, required, before + [c], rest);
      FoldedOne(step, State(required, before, false, false), Typed(c), ClauseWords(rest));
      assert before + [c] + rest == before + excluded;
    }
  }

  lemma {:induction false} GroupWordsAre(group: seq<Clause>)
    requires forall c <- group :: '"' !in c.text
    ensures forall word <- GroupWords(group) :: IsWord(word)
  {
    if |group| > 1 {
      GroupWordsAre(group[1..]);
    }
  }

  lemma {:induction false} AllWordsAre(groups: seq<Group>)
    requires forall group <- groups :: forall c <- group :: '"' !in c.text
    ensures forall word <- AllWords(groups) :: IsWord(word)
  {
    if groups != [] {
      assert groups[0] in groups && forall group <- groups[1..] :: group in groups;
      GroupWordsAre(groups[0]);
      AllWordsAre(groups[1..]);
    }
  }

  lemma {:induction false} ClauseWordsAre(clauses: seq<Clause>)
    requires forall c <- clauses :: '"' !in c.text
    ensures forall word <- ClauseWords(clauses) :: IsWord(word)
  {
    if clauses != [] {
      ClauseWordsAre(clauses[1..]);
    }
  }

  /**
   * The parser inverts the typing of a query: its clauses with their fields, stars and signs, in quotes; "or" between
   * the alternatives of a group; a blank between everything.
   */
  lemma TypedIsRead(u: Unicode, q: ParsedQuery)
    requires Folds(u) && GroupsTypable(u, q.required) && AllTypable(u, q.excluded, true)
    ensures Fold(u, START, RawClauses(TypedQuery(q))) == State(q.required, q.excluded, false, false)
  {
    var words, minus := AllWords(q.required), ClauseWords(q.excluded);
    var step: (State, Raw) -> State := (s: State, word: Raw) => Step(u, s, word);
    AllWordsAre(q.required);
    ClauseWordsAre(q.excluded);
    SpacedWords(words + minus);
    ParserReadsWords(u, step);
    ReadGroups(u, step, [], q.required);
    ReadExcluded(u, step, q.required, [], q.excluded);
    FoldedInTwo(step, START, words, minus);
    FoldedIsFold(u, step, START, words + minus);
    assert [] + q.required == q.required && [] + q.excluded == q.excluded;
  }

  /** The other names of a field, and the column of the index that each name reaches. */
  lemma FieldsReachColumns()
    ensures FieldOf("title").Some? && ColumnName(FieldOf("title").value) == "title"
    ensures FieldOf("abstract").Some? && ColumnName(FieldOf("abstract").value) == "abstract"
    ensures FieldOf("author").Some? && ColumnName(FieldOf("author").value) == "authors"
    ensures FieldOf("authors").Some? && ColumnName(FieldOf("authors").value) == "authors"
    ensures FieldOf("category").Some? && ColumnName(FieldOf("category").value) == "categories"
    ensures FieldOf("categories").Some? && ColumnName(FieldOf("categories").value) == "categories"
    ensures forall name :: FieldOf(name).Some? ==>
              name in {"title", "abstract", "author", "authors", "category", "categories"}
  {
  }

  function Lowered(c: char): char { if 'A' <= c <= 'Z' then (c as int + 32) as char else c }

  /** The operators are the three words in any mix of cases, and nothing else. */
  lemma OperatorSpellings(raw: string)
    ensures var lower := seq(|raw|, i requires 0 <= i < |raw| => Lowered(raw[i]));
            && (KeywordOf(raw) == OrWord <==> lower == "or") && (KeywordOf(raw) == AndWord <==> lower == "and")
            && (KeywordOf(raw) == NotWord <==> lower == "not")
  {
    var lower := seq(|raw|, i requires 0 <= i < |raw| => Lowered(raw[i]));
    if |raw| == 2 {
      assert lower == [Lowered(raw[0]), Lowered(raw[1])];
    } else if |raw| == 3 {
      assert lower == [Lowered(raw[0]), Lowered(raw[1]), Lowered(raw[2])];
    }
  }
}
