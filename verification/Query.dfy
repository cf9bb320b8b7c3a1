/** The Google-style query parser of the corpus search and the FTS5 text it renders. */
module Query {
  import opened Wrappers

  const MAX_QUERY := 500
  const MAX_CLAUSES := 32
  const MAX_PHRASE := 200

  datatype Column = Title | Abstract | Authors | Categories

  datatype Clause = Clause(text: string, field: Option<Column>, prefix: bool, negated: bool)

  /** Alternatives joined by OR; the parser never makes an empty group. */
  type Group = g: seq<Clause> | g != [] witness [Clause("x", None, false, false)]

  datatype ParsedQuery = ParsedQuery(required: seq<Group>, excluded: seq<Clause>)

  datatype QueryError = EmptyOrLong | TooManyTerms | NothingRequired

  /** The two Unicode tables the parser consults: str.casefold and the class [^\W_]. */
  datatype Unicode = Unicode(casefold: string -> string, isWord: char -> bool)

  // ---------------------------------------------------------------- rendering

  function ColumnName(c: Column): string {
    match c
    case Title => "title"
    case Abstract => "abstract"
    case Authors => "authors"
    case Categories => "categories"
  }

  function Doubled(text: string): string {
    if text == "" then "" else (if text[0] == '"' then "\"\"" else [text[0]]) + Doubled(text[1..])
  }

  function RenderLiteral(c: Clause): string {
    "\"" + Doubled(c.text) + "\"" + if c.prefix then "*" else ""
  }

  function RenderClause(c: Clause): string {
    match c.field
    case None => RenderLiteral(c)
    case Some(column) => "{" + ColumnName(column) + "} : " + RenderLiteral(c)
  }

  /** The rendered clauses joined by " OR ". */
  function RenderAny(clauses: seq<Clause>): string {
    if clauses == [] then ""
    else if |clauses| == 1 then RenderClause(clauses[0])
    else RenderClause(clauses[0]) + " OR " + RenderAny(clauses[1..])
  }

  function RenderGroup(group: Group): string {
    if |group| > 1 then "(" + RenderAny(group) + ")" else RenderAny(group)
  }

  /** The rendered groups joined by " AND ". */
  function RenderAll(groups: seq<Group>): string {
    if groups == [] then ""
    else if |groups| == 1 then RenderGroup(groups[0])
    else RenderGroup(groups[0]) + " AND " + RenderAll(groups[1..])
  }

  function Render(q: ParsedQuery): string {
    if q.excluded == [] then RenderAll(q.required)
    else "(" + RenderAll(q.required) + ") NOT (" + RenderAny(q.excluded) + ")"
  }

  // ---------------------------------------------------------------- tokens of the query string

  /** What Python counts as whitespace, both for \s and for str.strip. */
  predicate IsSpace(c: char) {
    var u := c as int;
    9 <= u <= 13 || 28 <= u <= 32 || u == 0x85 || u == 0xA0 || u == 0x1680 || 0x2000 <= u <= 0x200A
    || u == 0x2028 || u == 0x2029 || u == 0x202F || u == 0x205F || u == 0x3000
  }

  /** The code points of whitespace, one by one. */
  const SPACES: set<int> := {0x09, 0x0A, 0x0B, 0x0C, 0x0D, 0x1C, 0x1D, 0x1E, 0x1F, 0x20, 0x85, 0xA0, 0x1680, 0x2000,
    0x2001,
                             0x2002, 0x2003, 0x2004, 0x2005, 0x2006, 0x2007, 0x2008, 0x2009, 0x200A, 0x2028, 0x2029,
                             0x202F, 0x205F, 0x3000}

  lemma SpacesAreListed(c: char)
    ensures IsSpace(c) <==> c as int in SPACES
  {
  }

  predicate IsVisible(c: char) { !IsSpace(c) }

  predicate NotQuote(c: char) { c != '"' }

  predicate NotColon(c: char) { c != ':' }

  predicate IsLetter(c: char) { 'a' <= c <= 'z' || 'A' <= c <= 'Z' }

  /** The length of the longest prefix whose characters all satisfy p. */
  function Run(s: string, p: char -> bool): (n: nat)
    ensures n <= |s|
    ensures forall i | 0 <= i < n :: p(s[i])
    ensures n < |s| ==> !p(s[n])
    ensures s != "" && p(s[0]) ==> n > 0
  {
    if s == "" || !p(s[0]) then 0 else 1 + Run(s[1..], p)
  }

  /** Where the quoted text may open: behind letters and a colon, or at the start. */
  function OpensAt(s: string): nat {
    var letters := Run(s, IsLetter);
    if letters > 0 && letters < |s| && s[letters] == ':' then letters + 1 else 0
  }

  /** The end of a match of "[^"]*"\*? that opens somewhere, or 0 when there is none. */
  function QuotedFrom(s: string, open: nat): (n: nat)
    ensures n <= |s|
  {
    if open < |s| && s[open] == '"' then
      var close := open + 1 + Run(s[open + 1..], NotQuote);
      if close == |s| then 0
      else if close + 1 < |s| && s[close + 1] == '*' then close + 2
      else close + 1
    else 0
  }

  /** The length of a match of (?:[A-Za-z]+:)?"[^"]*"\*? at the start, or 0 when there is none. */
  function UnsignedMatch(s: string): (n: nat)
    ensures n <= |s|
  {
    QuotedFrom(s, OpensAt(s))
  }

  /** The same after an optional sign. */
  function QuotedMatch(s: string): (n: nat)
    ensures n <= |s|
  {
    var sign := if s != "" && (s[0] == '+' || s[0] == '-') then 1 else 0;
    var n := UnsignedMatch(s[sign..]);
    if n == 0 then 0 else sign + n
  }

  /** A regular-expression match: never empty. */
  type Raw = s: string | s != "" witness "x"

  /** The length of the RAW_CLAUSE match at a visible character. */
  function ClauseLength(s: string): (n: nat)
    requires s != "" && !IsSpace(s[0])
    ensures 0 < n <= |s|
  {
    var quoted := QuotedMatch(s);
    if quoted > 0 then quoted else Run(s, IsVisible)
  }

  /** The matches of RAW_CLAUSE, left to right. */
  function RawClauses(s: string): seq<Raw>
    decreases |s|
  {
    if s == "" then []
    else if IsSpace(s[0]) then RawClauses(s[1..])
    else
      var n := ClauseLength(s);
      var raw: Raw := s[..n];
      [raw] + RawClauses(s[n..])
  }

  function Strip(s: string): (r: string)
    decreases |s|
  {
    if s != "" && IsSpace(s[0]) then Strip(s[1..])
    else if s != "" && IsSpace(s[|s| - 1]) then Strip(s[..|s| - 1])
    else s
  }

  /** Stripping takes whitespace from both ends and nothing else. */
  lemma {:induction false} StripTakesSpace(s: string) returns (before: string, after: string)
    ensures s == before + Strip(s) + after && forall c <- before + after :: IsSpace(c)
    ensures Strip(s) != "" ==> !IsSpace(Strip(s)[0]) && !IsSpace(Strip(s)[|Strip(s)| - 1])
    decreases |s|
  {
    if s != "" && IsSpace(s[0]) {
      before, after := StripTakesSpace(s[1..]);
      before := [s[0]] + before;
    } else if s != "" && IsSpace(s[|s| - 1]) {
      before, after := StripTakesSpace(s[..|s| - 1]);
      after := after + [s[|s| - 1]];
    } else {
      before, after := "", "";
    }
  }

  lemma StripsToNothing(s: string)
    ensures Strip(s) == "" <==> forall c <- s :: IsSpace(c)
  {
    var before, after := StripTakesSpace(s);
    if Strip(s) != "" {
      assert Strip(s)[0] in s;
    }
  }

  // ---------------------------------------------------------------- clauses

  datatype Keyword = OrWord | AndWord | NotWord | NoKeyword

  predicate SameLetter(c: char, lower: char, upper: char) { c == lower || c == upper }

  /** The bare boolean words, in any case. */
  function KeywordOf(raw: string): Keyword {
    if |raw| == 2 && SameLetter(raw[0], 'o', 'O') && SameLetter(raw[1], 'r', 'R') then OrWord
    else if |raw| == 3 && SameLetter(raw[0], 'a', 'A') && SameLetter(raw[1], 'n', 'N')
      && SameLetter(raw[2], 'd', 'D') then AndWord
    else if |raw| == 3 && SameLetter(raw[0], 'n', 'N') && SameLetter(raw[1], 'o', 'O')
      && SameLetter(raw[2], 't', 'T') then NotWord
    else NoKeyword
  }

  /** The column a folded field prefix names. */
  function FieldOf(folded: string): Option<Column> {
    if folded == "title" then Some(Title)
    else if folded == "abstract" then Some(Abstract)
    else if folded == "author" || folded == "authors" then Some(Authors)
    else if folded == "category" || folded == "categories" then Some(Categories)
    else None
  }

  predicate Meaningful(u: Unicode, text: string) { exists i | 0 <= i < |text| :: u.isWord(text[i]) }

  /** The last position of a quote, given that position 0 is one. */
  function LastQuote(s: string): (n: nat)
    requires s != "" && s[0] == '"'
    ensures n < |s| && s[n] == '"' && forall i | n < i < |s| :: s[i] != '"'
  {
    if s[|s| - 1] == '"' then |s| - 1 else LastQuote(s[..|s| - 1])
  }

  predicate EndsWithStar(s: string) { s != "" && s[|s| - 1] == '*' }

  /** The text and prefix mark of a clause once its sign and field are removed. */
  function BodyOf(s: string): (string, bool) {
    if s != "" && s[0] == '"' then
      var close := LastQuote(s);
      (if close > 0 then s[1..close] else s[1..], EndsWithStar(s))
    else if EndsWithStar(s) then (s[..|s| - 1], true)
    else (s, false)
  }

  function BuildUnsigned(u: Unicode, raw: string, negated: bool): Option<Clause> {
    var separator := Run(raw, NotColon);
    var column := if 0 < separator < |raw| then FieldOf(u.casefold(raw[..separator])) else None;
    var (body, prefix) := BodyOf(if column.Some? then raw[separator + 1..] else raw);
    var text := Strip(if |body| > MAX_PHRASE then body[..MAX_PHRASE] else body);
    if Meaningful(u, text) then Some(Clause(text, column, prefix, negated)) else None
  }

  function BuildClause(u: Unicode, raw: Raw): Option<Clause> {
    if raw[0] == '+' || raw[0] == '-' then BuildUnsigned(u, raw[1..], raw[0] == '-') else BuildUnsigned(u, raw, false)
  }

  // ---------------------------------------------------------------- the parser

  /** What the parsing loop carries from one raw clause to the next. */
  datatype State = State(required: seq<Group>, excluded: seq<Clause>, pendingOr: bool, pendingNot: bool)

  const START := State([], [], false, false)

  function Place(s: State, built: Clause): State {
    var clause := if s.pendingNot then built.(negated := true) else built;
    if clause.negated then State(s.required, s.excluded + [clause], false, false)
    else if s.pendingOr && s.required != [] then
      State(s.required[..|s.required| - 1] + [s.required[|s.required| - 1] + [clause]], s.excluded, false, false)
    else State(s.required + [[clause]], s.excluded, false, false)
  }

  function Step(u: Unicode, s: State, raw: Raw): State {
    match KeywordOf(raw)
    case OrWord => if s.required != [] then s.(pendingOr := true) else StepClause(u, s, raw)
    case AndWord => s
    case NotWord => s.(pendingNot := true)
    case NoKeyword => StepClause(u, s, raw)
  }

  function StepClause(u: Unicode, s: State, raw: Raw): State {
    match BuildClause(u, raw)
    case None => s
    case Some(clause) => Place(s, clause)
  }

  function Fold(u: Unicode, s: State, raws: seq<Raw>): State
    decreases raws
  {
    if raws == [] then s else Fold(u, Step(u, s, raws[0]), raws[1..])
  }

  function Joined(groups: seq<Group>): seq<Clause> {
    if groups == [] then [] else groups[0] + Joined(groups[1..])
  }

  /** What every parsed query satisfies. */
  ghost predicate WellFormed(u: Unicode, q: ParsedQuery) {
    && q.required != []
    && (forall group <- q.required, c <- group :: !c.negated && ValidText(u, c.text))
    && (forall c <- q.excluded :: c.negated && ValidText(u, c.text))
    && |Joined(q.required)| + |q.excluded| <= MAX_CLAUSES
  }

  ghost predicate ValidText(u: Unicode, text: string) {
    text != "" && |text| <= MAX_PHRASE && Strip(text) == text && Meaningful(u, text)
  }

  // ---------------------------------------------------------------- what every step keeps

  ghost predicate GroupsOk(u: Unicode, groups: seq<Group>) {
    forall group <- groups, c <- group :: !c.negated && ValidText(u, c.text)
  }

  ghost predicate ExcludedOk(u: Unicode, excluded: seq<Clause>) {
    forall c <- excluded :: c.negated && ValidText(u, c.text)
  }

  lemma {:induction false} StripIsTrimmed(s: string)
    ensures |Strip(s)| <= |s|
    ensures Strip(s) != "" ==> !IsSpace(Strip(s)[0]) && !IsSpace(Strip(s)[|Strip(s)| - 1])
    decreases |s|
  {
    if s != "" && IsSpace(s[0]) {
      StripIsTrimmed(s[1..]);
    } else if s != "" && IsSpace(s[|s| - 1]) {
      StripIsTrimmed(s[..|s| - 1]);
    }
  }

  /** Whatever the user wrote, a built clause carries trimmed, bounded, searchable text. */
  lemma BuiltTextIsValid(u: Unicode, raw: string, negated: bool, built: Clause)
    requires BuildUnsigned(u, raw, negated) == Some(built)
    ensures ValidText(u, built.text)
  {
    var separator := Run(raw, NotColon);
    var column := if 0 < separator < |raw| then FieldOf(u.casefold(raw[..separator])) else None;
    var (body, _) := BodyOf(if column.Some? then raw[separator + 1..] else raw);
    StripIsTrimmed(if |body| > MAX_PHRASE then body[..MAX_PHRASE] else body);
  }

  ghost predicate StateOk(u: Unicode, s: State) {
    (s.pendingOr ==> s.required != []) && GroupsOk(u, s.required) && ExcludedOk(u, s.excluded)
  }

  lemma PlaceKeeps(u: Unicode, s: State, built: Clause)
    requires StateOk(u, s) && ValidText(u, built.text)
    ensures StateOk(u, Place(s, built))
  {
    var clause := if s.pendingNot then built.(negated := true) else built;
    if !clause.negated && s.pendingOr {
      var n := |s.required| - 1;
      assert s.required[n] in s.required;
      assert s.required[..n] + [s.required[n]] == s.required;
      forall group <- s.required[..n] + [s.required[n] + [clause]], c <- group
        ensures !c.negated && ValidText(u, c.text)
      {
        assert group in s.required || group == s.required[n] + [clause];
      }
    }
  }

  lemma StepKeeps(u: Unicode, s: State, raw: Raw)
    requires StateOk(u, s)
    ensures StateOk(u, Step(u, s, raw))
  {
    match BuildClause(u, raw)
    case None =>
    case Some(built) =>
      if raw[0] == '+' || raw[0] == '-' {
        BuiltTextIsValid(u, raw[1..], raw[0] == '-', built);
      } else {
        BuiltTextIsValid(u, raw, false, built);
      }
      PlaceKeeps(u, s, built);
  }

  lemma {:induction false} FoldKeeps(u: Unicode, s: State, raws: seq<Raw>)
    requires StateOk(u, s)
    ensures StateOk(u, Fold(u, s, raws))
    decreases raws
  {
    if raws != [] {
      StepKeeps(u, s, raws[0]);
      FoldKeeps(u, Step(u, s, raws[0]), raws[1..]);
    }
  }

  /** How many alternatives the required groups hold besides their first clauses. */
  function Alternatives(required: seq<Group>): int {
    if required == [] then 0 else |required[0]| - 1 + Alternatives(required[1..])
  }

  lemma {:induction false} TermsAreJoined(required: seq<Group>)
    ensures |required| + Alternatives(required) == |Joined(required)|
  {
    if required != [] {
      TermsAreJoined(required[1..]);
    }
  }

  method Parse(u: Unicode, query: string) returns (r: Result<ParsedQuery, QueryError>)
    ensures var read := Fold(u, START, RawClauses(query));
            var terms := |Joined(read.required)| + |read.excluded|;
            r == if Strip(query) == "" || |query| > MAX_QUERY then Err(EmptyOrLong)
                 else if terms > MAX_CLAUSES then Err(TooManyTerms)
                 else if read.required == [] then Err(NothingRequired)
                 else Ok(ParsedQuery(read.required, read.excluded))
    ensures r.Ok? ==> WellFormed(u, r.value)
    ensures r == Err(EmptyOrLong) <==> |query| > 500 || forall c <- query :: IsSpace(c)
    ensures r == Err(TooManyTerms) ==> |Joined(Fold(u, START, RawClauses(query)).required)|
                                       + |Fold(u, START, RawClauses(query)).excluded| > 32
    ensures r.Ok? ==> |Joined(r.value.required)| + |r.value.excluded| <= 32
  {
    StripsToNothing(query);
    if Strip(query) == "" || |query| > MAX_QUERY {
      return Err(EmptyOrLong);
    }
    var required: seq<Group>, excluded: seq<Clause> := [], [];
    var pendingOr, pendingNot := false, false;
    var raws := RawClauses(query);
    for i := 0 to |raws|
      invariant pendingOr ==> required != []
      invariant Fold(u, State(required, excluded, pendingOr, pendingNot), raws[i..]) == Fold(u, START, raws)
    {
      var raw := raws[i];
      assert raws[i..][0] == raw && raws[i..][1..] == raws[i + 1..];
      var keyword := KeywordOf(raw);
      if keyword == OrWord && required != [] {
        pendingOr := true;
        continue;
      }
      if keyword == AndWord {
        continue;
      }
      if keyword == NotWord {
        pendingNot := true;
        continue;
      }
      var built := BuildClause(u, raw);
      if built.None? {
        continue;
      }
      var clause := built.value;
      if pendingNot {
        clause := clause.(negated := true);
        pendingNot := false;
      }
      if clause.negated {
        excluded := excluded + [clause];
        pendingOr := false;
        continue;
      }
      if pendingOr {
        required := required[..|required| - 1] + [required[|required| - 1] + [clause]];
      } else {
        required := required + [[clause]];
      }
      pendingOr := false;
    }
    FoldKeeps(u, START, raws);
    TermsAreJoined(required);
    var total := |required| + Alternatives(required) + |excluded|;
    if total > MAX_CLAUSES {
      return Err(TooManyTerms);
    }
    if required == [] {
      return Err(NothingRequired);
    }
    return Ok(ParsedQuery(required, excluded));
  }
}
