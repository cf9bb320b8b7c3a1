/**
 * A reader for the SQLite FTS5 query syntax (section 3 of the SQLite FTS5 documentation): quoted strings with
 * doubled quotes, prefix stars, column filters, parentheses, and NOT over AND over OR, all left-associative.
 * Phrases joined by "+", NEAR groups, "^", negated column filters and implicit AND are not read: text that
 * uses them is not accepted.
 */
module Fts5Reader {
  import opened Wrappers

  // ---------------------------------------------------------------- tokens

  datatype Token =
    | Str(text: string) | Bare(word: string) | OrOp | AndOp | NotOp
    | Star | LeftParen | RightParen | LeftBrace | RightBrace | Colon

  predicate IsBlank(c: char) { c == ' ' || c == '\t' || c == '\n' || c == '\r' }

  predicate IsBareword(c: char) {
    'a' <= c <= 'z' || 'A' <= c <= 'Z' || '0' <= c <= '9' || c == '_' || c as int >= 128 || c as int == 26
  }

  function Punctuation(c: char): Option<Token> {
    match c
    case '*' => Some(Star)
    case '(' => Some(LeftParen)
    case ')' => Some(RightParen)
    case '{' => Some(LeftBrace)
    case '}' => Some(RightBrace)
    case ':' => Some(Colon)
    case _ => None
  }

  /** Reads the inside of a quoted string up to its closing quote; a doubled quote stands for one. */
  function Quoted(s: string): (r: Option<(string, string)>)
    ensures r.Some? ==> |r.value.1| < |s|
  {
    if s == "" then None
    else if s[0] != '"' then
      match Quoted(s[1..])
      case None => None
      case Some((text, rest)) => Some(([s[0]] + text, rest))
    else if |s| > 1 && s[1] == '"' then
      match Quoted(s[2..])
      case None => None
      case Some((text, rest)) => Some(("\"" + text, rest))
    else Some(("", s[1..]))
  }

  function WordLength(s: string): (n: nat)
    ensures n <= |s|
  {
    if s == "" || !IsBareword(s[0]) then 0 else 1 + WordLength(s[1..])
  }

  /** The upper-case operator words; every other bareword is text or a column name. */
  function WordToken(word: string): Token {
    if word == "OR" then OrOp else if word == "AND" then AndOp else if word == "NOT" then NotOp else Bare(word)
  }

  function Before(t: Token, rest: Option<seq<Token>>): Option<seq<Token>> {
    match rest
    case None => None
    case Some(ts) => Some([t] + ts)
  }

  function Lex(s: string): Option<seq<Token>>
    decreases |s|
  {
    if s == "" then Some([])
    else if IsBlank(s[0]) then Lex(s[1..])
    else if s[0] == '"' then
      match Quoted(s[1..])
      case None => None
      case Some((text, rest)) => Before(Str(text), Lex(rest))
    else if IsBareword(s[0]) then
      var n := WordLength(s);
      Before(WordToken(s[..n]), Lex(s[n..]))
    else
      match Punctuation(s[0])
      case None => None
      case Some(t) => Before(t, Lex(s[1..]))
  }

  // ---------------------------------------------------------------- expressions

  datatype Expr =
    | Phrase(text: string, prefix: bool)
    | Filter(columns: seq<string>, inner: Expr)
    | And(left: Expr, right: Expr)
    | Or(left: Expr, right: Expr)
    | Not(left: Expr, right: Expr)

  datatype Parse = Refused | Parsed(expr: Expr, rest: seq<Token>)

  predicate Begins(ts: seq<Token>, t: Token) { ts != [] && ts[0] == t }

  predicate Advances(p: Parse, ts: seq<Token>) { p.Parsed? ==> |p.rest| < |ts| }

  function ReadPhrase(ts: seq<Token>): (p: Parse)
    ensures Advances(p, ts)
  {
    if ts != [] && (ts[0].Str? || ts[0].Bare?) then
      var text := if ts[0].Str? then ts[0].text else ts[0].word;
      if Begins(ts[1..], Star) then Parsed(Phrase(text, true), ts[2..]) else Parsed(Phrase(text, false), ts[1..])
    else Refused
  }

  /** The column names up to the closing brace. */
  function ReadColumns(ts: seq<Token>): (r: Option<(seq<string>, seq<Token>)>)
    ensures r.Some? ==> |r.value.1| < |ts|
  {
    if ts == [] then None
    else if ts[0] == RightBrace then Some(([], ts[1..]))
    else if ts[0].Bare? then
      match ReadColumns(ts[1..])
      case None => None
      case Some((names, rest)) => Some(([ts[0].word] + names, rest))
    else None
  }

  /** What a column filter may stand in front of. */
  function ReadOperand(ts: seq<Token>): (p: Parse)
    ensures Advances(p, ts)
    decreases |ts|, 0
  {
    if Begins(ts, LeftParen) then
      var inner := ReadOr(ts[1..]);
      if inner.Parsed? && Begins(inner.rest, RightParen) then Parsed(inner.expr, inner.rest[1..]) else Refused
    else ReadPhrase(ts)
  }

  function Filtered(columns: seq<string>, p: Parse): Parse {
    match p
    case Refused => Refused
    case Parsed(e, rest) => Parsed(Filter(columns, e), rest)
  }

  function ReadPrimary(ts: seq<Token>): (p: Parse)
    ensures Advances(p, ts)
    decreases |ts|, 1
  {
    if Begins(ts, LeftBrace) then
      match ReadColumns(ts[1..])
      case None => Refused
      case Some((names, rest)) =>
        if names != [] && Begins(rest, Colon) then Filtered(names, ReadOperand(rest[1..])) else Refused
    else if |ts| > 1 && ts[0].Bare? && ts[1] == Colon then Filtered([ts[0].word], ReadOperand(ts[2..]))
    else ReadOperand(ts)
  }

  function ReadNot(ts: seq<Token>): (p: Parse)
    ensures Advances(p, ts)
    decreases |ts|, 2
  {
    var first := ReadPrimary(ts);
    if first.Refused? then Refused else MoreNot(first.expr, first.rest)
  }

  function MoreNot(left: Expr, ts: seq<Token>): (p: Parse)
    ensures p.Parsed? ==> |p.rest| <= |ts|
    decreases |ts|, 2
  {
    if Begins(ts, NotOp) then
      var next := ReadPrimary(ts[1..]);
      if next.Refused? then Refused else MoreNot(Not(left, next.expr), next.rest)
    else Parsed(left, ts)
  }

  function ReadAnd(ts: seq<Token>): (p: Parse)
    ensures Advances(p, ts)
    decreases |ts|, 3
  {
    var first := ReadNot(ts);
    if first.Refused? then Refused else MoreAnd(first.expr, first.rest)
  }

  function MoreAnd(left: Expr, ts: seq<Token>): (p: Parse)
    ensures p.Parsed? ==> |p.rest| <= |ts|
    decreases |ts|, 3
  {
    if Begins(ts, AndOp) then
      var next := ReadNot(ts[1..]);
      if next.Refused? then Refused else MoreAnd(And(left, next.expr), next.rest)
    else Parsed(left, ts)
  }

  function ReadOr(ts: seq<Token>): (p: Parse)
    ensures Advances(p, ts)
    decreases |ts|, 4
  {
    var first := ReadAnd(ts);
    if first.Refused? then Refused else MoreOr(first.expr, first.rest)
  }

  function MoreOr(left: Expr, ts: seq<Token>): (p: Parse)
    ensures p.Parsed? ==> |p.rest| <= |ts|
    decreases |ts|, 4
  {
    if Begins(ts, OrOp) then
      var next := ReadAnd(ts[1..]);
      if next.Refused? then Refused else MoreOr(Or(left, next.expr), next.rest)
    else Parsed(left, ts)
  }

  /** A whole query: every token belongs to one expression. */
  function Read(s: string): Option<Expr> {
    match Lex(s)
    case None => None
    case Some(ts) =>
      var p := ReadOr(ts);
      if p.Parsed? && p.rest == [] then Some(p.expr) else None
  }

  // ---------------------------------------------------------------- meaning

  /** Whether one record satisfies an expression, given which phrases it contains in which columns. */
  predicate Holds(e: Expr, columns: Option<seq<string>>, contains: (string, bool, Option<seq<string>>) -> bool) {
    match e
    case Phrase(text, prefix) => contains(text, prefix, columns)
    case Filter(names, inner) => Holds(inner, Some(names), contains)
    case And(l, r) => Holds(l, columns, contains) && Holds(r, columns, contains)
    case Or(l, r) => Holds(l, columns, contains) || Holds(r, columns, contains)
    case Not(l, r) => Holds(l, columns, contains) && !Holds(r, columns, contains)
  }
}
