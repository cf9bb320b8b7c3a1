/**
 * Reading back what the query parser renders. The FTS5 reader recovers from the rendered text exactly the
 * clauses of the query, in their boolean structure, with every clause text recovered character for character.
 */
module QueryReadBack {
  import opened Wrappers
  import opened Query
  import opened Fts5Reader

  // ---------------------------------------------------------------- the intended tree

  function ClauseExpr(c: Clause): Expr {
    match c.field
    case None => Phrase(c.text, c.prefix)
    case Some(column) => Filter([ColumnName(column)], Phrase(c.text, c.prefix))
  }

  function OrOnto(left: Expr, clauses: seq<Clause>): Expr
    decreases clauses
  {
    if clauses == [] then left else OrOnto(Or(left, ClauseExpr(clauses[0])), clauses[1..])
  }

  function AnyExpr(clauses: seq<Clause>): Expr
    requires clauses != []
  {
    OrOnto(ClauseExpr(clauses[0]), clauses[1..])
  }

  function AndOnto(left: Expr, groups: seq<Group>): Expr
    decreases groups
  {
    if groups == [] then left else AndOnto(And(left, AnyExpr(groups[0])), groups[1..])
  }

  function QueryExpr(q: ParsedQuery): Expr
    requires q.required != []
  {
    var all := AndOnto(AnyExpr(q.required[0]), q.required[1..]);
    if q.excluded == [] then all else Not(all, AnyExpr(q.excluded))
  }

  // ---------------------------------------------------------------- its tokens

  function ClauseTokens(c: Clause): seq<Token> {
    (match c.field case None => [] case Some(column) => [LeftBrace, Bare(ColumnName(column)), RightBrace, Colon])
    + [Str(c.text)] + if c.prefix then [Star] else []
  }

  function AnyTokens(clauses: seq<Clause>): seq<Token> {
    if clauses == [] then []
    else if |clauses| == 1 then ClauseTokens(clauses[0])
    else ClauseTokens(clauses[0]) + [OrOp] + AnyTokens(clauses[1..])
  }

  function GroupTokens(group: Group): seq<Token> {
    if |group| > 1 then [LeftParen] + AnyTokens(group) + [RightParen] else AnyTokens(group)
  }

  function AllTokens(groups: seq<Group>): seq<Token> {
    if groups == [] then []
    else if |groups| == 1 then GroupTokens(groups[0])
    else GroupTokens(groups[0]) + [AndOp] + AllTokens(groups[1..])
  }

  function QueryTokens(q: ParsedQuery): seq<Token> {
    if q.excluded == [] then AllTokens(q.required)
    else [LeftParen] + AllTokens(q.required) + [RightParen, NotOp, LeftParen] + AnyTokens(q.excluded) + [RightParen]
  }

  // ---------------------------------------------------------------- lexing the rendered text

  /** What may follow a closing quote without changing where the string ends. */
  predicate Clear(rest: string) { rest == "" || rest[0] != '"' }

  /** Undoubling inverts doubling, for every text, quotes included. */
  lemma {:induction false} QuotedInvertsDoubled(text: string, rest: string)
    requires Clear(rest)
    ensures Quoted(Doubled(text) + "\"" + rest) == Some((text, rest))
  {
    if text == "" {
      assert Doubled(text) + "\"" + rest == "\"" + rest;
    } else {
      QuotedInvertsDoubled(text[1..], rest);
      var head := if text[0] == '"' then "\"\"" else [text[0]];
      var tail := Doubled(text[1..]) + "\"" + rest;
      assert Doubled(text) + "\"" + rest == head + tail;
      assert (head + tail)[|head|..] == tail;
      assert [text[0]] + text[1..] == text;
    }
  }

  lemma LexPunctuation(c: char, rest: string, ts: seq<Token>)
    requires Punctuation(c).Some? && Lex(rest) == Some(ts)
    ensures Lex([c] + rest) == Some([Punctuation(c).value] + ts)
  {
    assert ([c] + rest)[1..] == rest;
  }

  lemma LexBlank(rest: string)
    ensures Lex(" " + rest) == Lex(rest)
  {
    assert (" " + rest)[1..] == rest;
  }

  lemma {:induction false} WordEnds(word: string, rest: string)
    requires forall c <- word :: IsBareword(c)
    requires rest == "" || !IsBareword(rest[0])
    ensures WordLength(word + rest) == |word|
  {
    if word != "" {
      assert (word + rest)[1..] == word[1..] + rest;
      WordEnds(word[1..], rest);
    } else {
      assert word + rest == rest;
    }
  }

  lemma LexWord(word: string, rest: string, ts: seq<Token>)
    requires word != "" && (forall c <- word :: IsBareword(c)) && (rest == "" || !IsBareword(rest[0]))
    requires Lex(rest) == Some(ts)
    ensures Lex(word + rest) == Some([WordToken(word)] + ts)
  {
    WordEnds(word, rest);
    assert word[0] in word && (word + rest)[0] == word[0];
    assert (word + rest)[..|word|] == word && (word + rest)[|word|..] == rest;
  }

  lemma Regroup<T>(a: seq<T>, b: seq<T>, c: seq<T>, rest: seq<T>)
    ensures (a + b + c) + rest == a + (b + (c + rest))
  {
  }

  /** A boolean operator between spaces, as the joins write it. */
  lemma LexOperator(word: string, spaced: string, rest: string, ts: seq<Token>)
    requires (word == "OR" && spaced == " OR ") || (word == "AND" && spaced == " AND ")
             || (word == "NOT" && spaced == " NOT ")
    requires Lex(rest) == Some(ts)
    ensures Lex(spaced + rest) == Some([WordToken(word)] + ts)
  {
    LexBlank(rest);
    LexWord(word, " " + rest, ts);
    LexBlank(word + (" " + rest));
    assert spaced == " " + word + " ";
    Regroup(" ", word, " ", rest);
  }

  lemma LiteralUnfolds(c: Clause, rest: string)
    ensures RenderLiteral(c) + rest == "\"" + (Doubled(c.text) + "\"" + ((if c.prefix then "*" else "") + rest))
  {
  }

  lemma LexQuoted(text: string, rest: string, ts: seq<Token>)
    requires Clear(rest) && Lex(rest) == Some(ts)
    ensures Lex("\"" + (Doubled(text) + "\"" + rest)) == Some([Str(text)] + ts)
  {
    QuotedInvertsDoubled(text, rest);
    var s := "\"" + (Doubled(text) + "\"" + rest);
    assert s[1..] == Doubled(text) + "\"" + rest;
  }

  lemma LexLiteral(c: Clause, rest: string, ts: seq<Token>)
    requires Clear(rest) && Lex(rest) == Some(ts)
    ensures Lex(RenderLiteral(c) + rest) == Some([Str(c.text)] + ((if c.prefix then [Star] else []) + ts))
  {
    LiteralUnfolds(c, rest);
    if c.prefix {
      LexPunctuation('*', rest, ts);
      LexQuoted(c.text, "*" + rest, [Star] + ts);
    } else {
      assert "" + rest == rest && [] + ts == ts;
      LexQuoted(c.text, rest, ts);
    }
  }

  lemma FilterUnfolds(name: string, literal: string, rest: string)
    ensures ("{" + name + "} : " + literal) + rest == "{" + (name + ("}" + (" " + (":" + (" " + (literal + rest))))))
  {
    assert "} : " == "}" + (" " + (":" + " "));
  }

  lemma NameIsWord(column: Column)
    ensures var name := ColumnName(column);
            name != "" && WordToken(name) == Bare(name) && forall c <- name :: IsBareword(c)
  {
  }

  lemma LexClause(c: Clause, rest: string, ts: seq<Token>)
    requires Clear(rest) && Lex(rest) == Some(ts)
    ensures Lex(RenderClause(c) + rest) == Some(ClauseTokens(c) + ts)
  {
    LexLiteral(c, rest, ts);
    ClauseTokensUnfold(c, ts);
    if c.field.Some? {
      NameIsWord(c.field.value);
      LexFilter(ColumnName(c.field.value), RenderLiteral(c) + rest, LiteralThen(c, ts));
      FilterUnfolds(ColumnName(c.field.value), RenderLiteral(c), rest);
    }
  }

  /** The tokens of a clause in front of more tokens. */
  function LiteralThen(c: Clause, ts: seq<Token>): seq<Token> {
    [Str(c.text)] + ((if c.prefix then [Star] else []) + ts)
  }

  lemma ClauseTokensUnfold(c: Clause, ts: seq<Token>)
    ensures c.field.None? ==> ClauseTokens(c) + ts == LiteralThen(c, ts)
    ensures c.field.Some? ==>
              ClauseTokens(c) + ts == [LeftBrace, Bare(ColumnName(c.field.value)), RightBrace, Colon]
                + LiteralThen(c, ts)
  {
  }

  lemma {:induction false} LexFilter(name: string, s: string, ts: seq<Token>)
    requires name != "" && WordToken(name) == Bare(name) && (forall c <- name :: IsBareword(c)) && Lex(s) == Some(ts)
    ensures Lex("{" + (name + ("}" + (" " + (":" + (" " + s)))))) ==
            Some([LeftBrace, Bare(name), RightBrace, Colon] + ts)
  {
    LexBlank(s);
    LexPunctuation(':', " " + s, ts);
    LexBlank(":" + (" " + s));
    LexPunctuation('}', " " + (":" + (" " + s)), [Colon] + ts);
    var closing := "}" + (" " + (":" + (" " + s)));
    LexWord(name, closing, [RightBrace] + ([Colon] + ts));
    LexPunctuation('{', name + closing, [Bare(name)] + ([RightBrace] + ([Colon] + ts)));
    assert [LeftBrace] + ([Bare(name)] + ([RightBrace] + ([Colon] + ts))) ==
           [LeftBrace, Bare(name), RightBrace, Colon] + ts;
  }

  lemma {:induction false} LexAny(clauses: seq<Clause>, rest: string, ts: seq<Token>)
    requires clauses != [] && Clear(rest) && Lex(rest) == Some(ts)
    ensures Lex(RenderAny(clauses) + rest) == Some(AnyTokens(clauses) + ts)
  {
    if |clauses| == 1 {
      LexClause(clauses[0], rest, ts);
    } else {
      LexAny(clauses[1..], rest, ts);
      LexOperator("OR", " OR ", RenderAny(clauses[1..]) + rest, AnyTokens(clauses[1..]) + ts);
      LexClause(clauses[0], " OR " + (RenderAny(clauses[1..]) + rest), [OrOp] + (AnyTokens(clauses[1..]) + ts));
      Regroup(RenderClause(clauses[0]), " OR ", RenderAny(clauses[1..]), rest);
      Regroup(ClauseTokens(clauses[0]), [OrOp], AnyTokens(clauses[1..]), ts);
    }
  }

  /** Parentheses around text that lexes in every context. */
  lemma LexEnclosed(inner: string, tokens: seq<Token>, rest: string, ts: seq<Token>)
    requires Lex(rest) == Some(ts)
    requires Lex(inner + (")" + rest)) == Some(tokens + ([RightParen] + ts))
    ensures Lex(("(" + inner + ")") + rest) == Some(([LeftParen] + tokens + [RightParen]) + ts)
  {
    LexPunctuation('(', inner + (")" + rest), tokens + ([RightParen] + ts));
    Regroup("(", inner, ")", rest);
    Regroup([LeftParen], tokens, [RightParen], ts);
  }

  lemma {:induction false} LexGroup(group: Group, rest: string, ts: seq<Token>)
    requires Clear(rest) && Lex(rest) == Some(ts)
    ensures Lex(RenderGroup(group) + rest) == Some(GroupTokens(group) + ts)
  {
    if |group| > 1 {
      LexPunctuation(')', rest, ts);
      LexAny(group, ")" + rest, [RightParen] + ts);
      LexEnclosed(RenderAny(group), AnyTokens(group), rest, ts);
    } else {
      LexAny(group, rest, ts);
    }
  }

  lemma {:induction false} LexAll(groups: seq<Group>, rest: string, ts: seq<Token>)
    requires groups != [] && Clear(rest) && Lex(rest) == Some(ts)
    ensures Lex(RenderAll(groups) + rest) == Some(AllTokens(groups) + ts)
  {
    if |groups| == 1 {
      LexGroup(groups[0], rest, ts);
    } else {
      LexAll(groups[1..], rest, ts);
      LexOperator("AND", " AND ", RenderAll(groups[1..]) + rest, AllTokens(groups[1..]) + ts);
      LexGroup(groups[0], " AND " + (RenderAll(groups[1..]) + rest), [AndOp] + (AllTokens(groups[1..]) + ts));
      Regroup(RenderGroup(groups[0]), " AND ", RenderAll(groups[1..]), rest);
      Regroup(GroupTokens(groups[0]), [AndOp], AllTokens(groups[1..]), ts);
    }
  }

  lemma {:induction false} LexQuery(q: ParsedQuery)
    requires q.required != []
    ensures Lex(Render(q)) == Some(QueryTokens(q))
  {
    if q.excluded == [] {
      LexAll(q.required, "", []);
      assert Render(q) + "" == Render(q) && AllTokens(q.required) + [] == AllTokens(q.required);
    } else {
      LexPunctuation(')', "", []);
      assert ")" + "" == ")" && [RightParen] + [] == [RightParen];
      LexAny(q.excluded, ")", [RightParen]);
      LexEnclosed(RenderAny(q.excluded), AnyTokens(q.excluded), "", []);
      var excluded := "(" + RenderAny(q.excluded) + ")";
      var right := [LeftParen] + AnyTokens(q.excluded) + [RightParen];
      assert excluded + "" == excluded && right + [] == right;
      LexOperator("NOT", " NOT ", excluded, right);
      LexPunctuation(')', " NOT " + excluded, [NotOp] + right);
      LexAll(q.required, ")" + (" NOT " + excluded), [RightParen] + ([NotOp] + right));
      LexEnclosed(RenderAll(q.required), AllTokens(q.required), " NOT " + excluded, [NotOp] + right);
      ExclusionUnfolds(RenderAll(q.required), RenderAny(q.excluded));
      ExclusionTokensUnfold(AllTokens(q.required), AnyTokens(q.excluded));
    }
  }

  lemma ExclusionUnfolds(a: string, b: string)
    ensures "(" + a + ") NOT (" + b + ")" == ("(" + a + ")") + (" NOT " + ("(" + b + ")"))
  {
    assert ") NOT (" == ")" + (" NOT " + "(");
  }

  lemma ExclusionTokensUnfold(a: seq<Token>, b: seq<Token>)
    ensures [LeftParen] + a + [RightParen, NotOp, LeftParen] + b + [RightParen] ==
            ([LeftParen] + a + [RightParen]) + ([NotOp] + ([LeftParen] + b + [RightParen]))
  {
  }

  // ---------------------------------------------------------------- parsing the tokens

  /** The end of an expression: nothing follows that could continue it. */
  predicate Closes(ts: seq<Token>) { ts == [] || ts[0] == RightParen }

  lemma ReadLiteral(c: Clause, ts: seq<Token>)
    requires !Begins(ts, Star)
    ensures ReadPhrase([Str(c.text)] + ((if c.prefix then [Star] else []) + ts)) == Parsed(Phrase(c.text, c.prefix), ts)
  {
    var s := [Str(c.text)] + ((if c.prefix then [Star] else []) + ts);
    if c.prefix {
      assert s[1..] == [Star] + ts && s[2..] == ts;
    } else {
      assert s[1..] == ts;
    }
  }

  lemma ReadFilter(name: string, literal: seq<Token>)
    ensures ReadColumns([Bare(name)] + ([RightBrace] + ([Colon] + literal))) == Some(([name], [Colon] + literal))
  {
    var closing := [RightBrace] + ([Colon] + literal);
    assert closing[1..] == [Colon] + literal;
    assert ReadColumns(closing) == Some(([], [Colon] + literal));
    assert ([Bare(name)] + closing)[1..] == closing;
    assert [name] + [] == [name];
  }

  lemma ReadClause(c: Clause, ts: seq<Token>)
    requires !Begins(ts, Star)
    ensures ReadPrimary(ClauseTokens(c) + ts) == Parsed(ClauseExpr(c), ts)
  {
    ReadLiteral(c, ts);
    ClauseTokensUnfold(c, ts);
    if c.field.Some? {
      ReadFiltered(ColumnName(c.field.value), LiteralThen(c, ts), Phrase(c.text, c.prefix), ts);
    }
  }

  lemma ReadFiltered(name: string, literal: seq<Token>, e: Expr, ts: seq<Token>)
    requires ReadPhrase(literal) == Parsed(e, ts) && !Begins(literal, LeftParen)
    ensures ReadPrimary([LeftBrace, Bare(name), RightBrace, Colon] + literal) == Parsed(Filter([name], e), ts)
  {
    ReadFilter(name, literal);
    var columns := [Bare(name)] + ([RightBrace] + ([Colon] + literal));
    assert ([LeftBrace, Bare(name), RightBrace, Colon] + literal)[1..] == columns;
    assert ([Colon] + literal)[1..] == literal;
  }

  /** A clause reads as one operand of OR. */
  lemma ReadAlternative(c: Clause, ts: seq<Token>)
    requires Closes(ts) || ts[0] == OrOp
    ensures ReadAnd(ClauseTokens(c) + ts) == Parsed(ClauseExpr(c), ts)
  {
    ReadClause(c, ts);
    assert ReadNot(ClauseTokens(c) + ts) == Parsed(ClauseExpr(c), ts);
  }

  lemma DropHead(t: Token, inner: seq<Token>, ts: seq<Token>)
    ensures (([t] + inner) + ts)[1..] == inner + ts
  {
  }

  function MoreAnyTokens(clauses: seq<Clause>): seq<Token> {
    if clauses == [] then [] else [OrOp] + AnyTokens(clauses)
  }

  lemma AnySplits(clauses: seq<Clause>, ts: seq<Token>)
    requires clauses != []
    ensures AnyTokens(clauses) + ts == ClauseTokens(clauses[0]) + (MoreAnyTokens(clauses[1..]) + ts)
  {
  }

  lemma {:induction false} ReadMoreAny(left: Expr, clauses: seq<Clause>, ts: seq<Token>)
    requires Closes(ts)
    ensures MoreOr(left, MoreAnyTokens(clauses) + ts) == Parsed(OrOnto(left, clauses), ts)
    decreases |clauses|
  {
    if clauses == [] {
      assert [] + ts == ts;
    } else {
      var after := MoreAnyTokens(clauses[1..]) + ts;
      DropHead(OrOp, AnyTokens(clauses), ts);
      AnySplits(clauses, ts);
      ReadAlternative(clauses[0], after);
      ReadMoreAny(Or(left, ClauseExpr(clauses[0])), clauses[1..], ts);
    }
  }

  lemma ReadAny(clauses: seq<Clause>, ts: seq<Token>)
    requires clauses != [] && Closes(ts)
    ensures ReadOr(AnyTokens(clauses) + ts) == Parsed(AnyExpr(clauses), ts)
  {
    AnySplits(clauses, ts);
    ReadAlternative(clauses[0], MoreAnyTokens(clauses[1..]) + ts);
    ReadMoreAny(ClauseExpr(clauses[0]), clauses[1..], ts);
  }

  lemma ReadEnclosed(inner: seq<Token>, e: Expr, ts: seq<Token>)
    requires ReadOr(inner + ([RightParen] + ts)) == Parsed(e, [RightParen] + ts)
    ensures ReadPrimary(([LeftParen] + inner + [RightParen]) + ts) == Parsed(e, ts)
  {
    var s := ([LeftParen] + inner + [RightParen]) + ts;
    assert s[1..] == inner + ([RightParen] + ts);
    assert ([RightParen] + ts)[1..] == ts;
  }

  /** A group reads as one operand of AND, alone or in parentheses. */
  lemma {:induction false} ReadGroup(group: Group, ts: seq<Token>)
    requires Closes(ts) || ts[0] == AndOp
    ensures ReadNot(GroupTokens(group) + ts) == Parsed(AnyExpr(group), ts)
  {
    if |group| > 1 {
      ReadAny(group, [RightParen] + ts);
      ReadEnclosed(AnyTokens(group), AnyExpr(group), ts);
    } else {
      ReadClause(group[0], ts);
    }
  }

  function MoreAllTokens(groups: seq<Group>): seq<Token> {
    if groups == [] then [] else [AndOp] + AllTokens(groups)
  }

  lemma AllSplits(groups: seq<Group>, ts: seq<Token>)
    requires groups != []
    ensures AllTokens(groups) + ts == GroupTokens(groups[0]) + (MoreAllTokens(groups[1..]) + ts)
  {
  }

  lemma {:induction false} ReadMoreAll(left: Expr, groups: seq<Group>, ts: seq<Token>)
    requires Closes(ts)
    ensures MoreAnd(left, MoreAllTokens(groups) + ts) == Parsed(AndOnto(left, groups), ts)
    decreases |groups|
  {
    if groups == [] {
      assert [] + ts == ts;
    } else {
      var after := MoreAllTokens(groups[1..]) + ts;
      DropHead(AndOp, AllTokens(groups), ts);
      AllSplits(groups, ts);
      ReadGroup(groups[0], after);
      ReadMoreAll(And(left, AnyExpr(groups[0])), groups[1..], ts);
    }
  }

  lemma ReadAll(groups: seq<Group>, ts: seq<Token>)
    requires groups != [] && Closes(ts)
    ensures ReadOr(AllTokens(groups) + ts) == Parsed(AndOnto(AnyExpr(groups[0]), groups[1..]), ts)
  {
    AllSplits(groups, ts);
    ReadGroup(groups[0], MoreAllTokens(groups[1..]) + ts);
    ReadMoreAll(AnyExpr(groups[0]), groups[1..], ts);
  }

  lemma ReadExclusion(all: seq<Token>, e: Expr, any: seq<Token>, x: Expr)
    requires ReadOr(all + ([RightParen] + ([NotOp] + ([LeftParen] + any + [RightParen])))) ==
             Parsed(e, [RightParen] + ([NotOp] + ([LeftParen] + any + [RightParen])))
    requires ReadOr(any + ([RightParen] + [])) == Parsed(x, [RightParen] + [])
    ensures ReadOr([LeftParen] + all + [RightParen, NotOp, LeftParen] + any + [RightParen]) == Parsed(Not(e, x), [])
  {
    var right := [LeftParen] + any + [RightParen];
    ReadEnclosed(any, x, []);
    assert right + [] == right;
    ReadEnclosed(all, e, [NotOp] + right);
    ExclusionTokensUnfold(all, any);
    assert ([NotOp] + right)[1..] == right;
    var s := ([LeftParen] + all + [RightParen]) + ([NotOp] + right);
    assert MoreNot(e, [NotOp] + right) == MoreNot(Not(e, x), []) == Parsed(Not(e, x), []);
    assert ReadNot(s) == Parsed(Not(e, x), []);
    assert ReadAnd(s) == Parsed(Not(e, x), []);
  }

  /** The printer/reader inverse: reading the rendered query gives back its tree, texts included. */
  lemma ReadInvertsRender(q: ParsedQuery)
    requires q.required != []
    ensures Read(Render(q)) == Some(QueryExpr(q))
  {
    LexQuery(q);
    if q.excluded == [] {
      ReadAll(q.required, []);
      assert AllTokens(q.required) + [] == AllTokens(q.required);
    } else {
      ReadAny(q.excluded, [RightParen] + []);
      ReadAll(q.required, [RightParen] + ([NotOp] + ([LeftParen] + AnyTokens(q.excluded) + [RightParen])));
      ReadExclusion(AllTokens(q.required), AndOnto(AnyExpr(q.required[0]), q.required[1..]), AnyTokens(q.excluded),
                    AnyExpr(q.excluded));
    }
  }

  // ---------------------------------------------------------------- meaning

  predicate Matches(c: Clause, contains: (string, bool, Option<seq<string>>) -> bool) {
    contains(c.text, c.prefix, match c.field case None => None case Some(column) => Some([ColumnName(column)]))
  }

  predicate MatchesAny(clauses: seq<Clause>, contains: (string, bool, Option<seq<string>>) -> bool) {
    exists c <- clauses :: Matches(c, contains)
  }

  lemma ClauseMeaning(c: Clause, contains: (string, bool, Option<seq<string>>) -> bool)
    ensures Holds(ClauseExpr(c), None, contains) <==> Matches(c, contains)
  {
    if c.field.Some? {
      var names := [ColumnName(c.field.value)];
      assert Holds(Phrase(c.text, c.prefix), Some(names), contains) == contains(c.text, c.prefix, Some(names));
    }
  }

  lemma {:induction false} OrMeaning(left: Expr, clauses: seq<Clause>,
                                     contains: (string, bool, Option<seq<string>>) -> bool)
    ensures Holds(OrOnto(left, clauses), None, contains) <==>
            Holds(left, None, contains) || exists c <- clauses :: Matches(c, contains)
    decreases |clauses|
  {
    if clauses != [] {
      OrMeaning(Or(left, ClauseExpr(clauses[0])), clauses[1..], contains);
      ClauseMeaning(clauses[0], contains);
      assert clauses == [clauses[0]] + clauses[1..];
    }
  }

  lemma AnyMeaning(clauses: seq<Clause>, contains: (string, bool, Option<seq<string>>) -> bool)
    requires clauses != []
    ensures Holds(AnyExpr(clauses), None, contains) <==> MatchesAny(clauses, contains)
  {
    OrMeaning(ClauseExpr(clauses[0]), clauses[1..], contains);
    ClauseMeaning(clauses[0], contains);
    assert clauses == [clauses[0]] + clauses[1..];
  }

  lemma {:induction false} AndMeaning(left: Expr, groups: seq<Group>,
                                      contains: (string, bool, Option<seq<string>>) -> bool)
    ensures Holds(AndOnto(left, groups), None, contains) <==>
            Holds(left, None, contains) && forall g <- groups :: MatchesAny(g, contains)
    decreases |groups|
  {
    if groups != [] {
      assert groups == [groups[0]] + groups[1..];
      AndMeaning(And(left, AnyExpr(groups[0])), groups[1..], contains);
      AnyMeaning(groups[0], contains);
    }
  }

  /** The rendered text means: every group has a matching clause, and no excluded clause matches. */
  lemma {:induction false} RenderedMeaning(u: Unicode, q: ParsedQuery,
                                           contains: (string, bool, Option<seq<string>>) -> bool)
    requires WellFormed(u, q)
    ensures Read(Render(q)).Some?
    ensures Holds(Read(Render(q)).value, None, contains) <==>
            (forall g <- q.required :: MatchesAny(g, contains)) && !MatchesAny(q.excluded, contains)
  {
    ReadInvertsRender(q);
    AnyMeaning(q.required[0], contains);
    assert q.required == [q.required[0]] + q.required[1..];
    AndMeaning(AnyExpr(q.required[0]), q.required[1..], contains);
    if q.excluded != [] {
      AnyMeaning(q.excluded, contains);
    }
  }
}
