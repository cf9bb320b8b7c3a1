/** The spelling suggestion of the corpus search: a prefix scan of the vocabulary and a ranked choice. */
module Spelling {
  import opened Wrappers
  import opened EditDistance

  const MAX_EDITS := 2
  const MAX_CANDIDATES := 20000

  /** One row of the index vocabulary: a term and the number of documents that contain it. */
  datatype Row = Row(term: string, documents: nat)

  // ---------------------------------------------------------------- the prefix range

  /** Strict code-point order, the order in which the vocabulary is compared. */
  predicate Below(a: string, b: string) {
    b != "" && (a == "" || a[0] < b[0] || (a[0] == b[0] && Below(a[1..], b[1..])))
  }

  /** Code-point order: a beginning comes before the whole, and otherwise the first difference decides. */
  lemma {:induction false} BelowAtTheDifference(a: string, b: string)
    ensures Below(a, b) <==>
            (a <= b && a != b) || exists i :: 0 <= i < |a| && i < |b| && a[..i] == b[..i] && a[i] < b[i]
  {
    if a != "" && b != "" {
      BelowAtTheDifference(a[1..], b[1..]);
      assert a <= b <==> a[0] == b[0] && a[1..] <= b[1..];
      if i :| 0 < i < |a| && i < |b| && a[..i] == b[..i] && a[i] < b[i] {
        assert a[0] == a[..i][0] == b[0] && a[1..][..i - 1] == a[..i][1..] == b[1..][..i - 1];
        assert a[1..][i - 1] < b[1..][i - 1];
      }
      if i :| 0 <= i < |a[1..]| && i < |b[1..]| && a[1..][..i] == b[1..][..i] && a[1..][i] < b[1..][i] && a[0] == b[0] {
        assert a[..i + 1] == [a[0]] + a[1..][..i] && b[..i + 1] == [b[0]] + b[1..][..i];
        assert a[i + 1] < b[i + 1];
      }
    }
  }

  lemma {:induction false} BelowIsTotal(a: string, b: string)
    ensures Below(a, b) || Below(b, a) || a == b
  {
    if a != "" && b != "" && a[0] == b[0] {
      BelowIsTotal(a[1..], b[1..]);
      assert a == [a[0]] + a[1..] && b == [b[0]] + b[1..];
    }
  }

  /** The next code point, when there is one that a string can hold. */
  function Successor(c: char): Option<char> {
    var code := c as int + 1;
    if code < 0xD800 || 0xE000 <= code < 0x110000 then Some(code as char) else None
  }

  lemma {:induction false} BelowTransitive(a: string, b: string, c: string)
    requires Below(a, b) && Below(b, c)
    ensures Below(a, c)
  {
    if a != "" && a[0] == b[0] == c[0] {
      BelowTransitive(a[1..], b[1..], c[1..]);
    }
  }

  lemma {:induction false} BelowIrreflexive(a: string)
    ensures !Below(a, a)
  {
    if a != "" {
      BelowIrreflexive(a[1..]);
    }
  }

  /** The half-open range [prefix, upper) holds exactly the strings that start with the prefix. */
  lemma {:induction false} RangeIsPrefix(s: string, prefix: string, next: char)
    requires prefix != "" && Successor(prefix[|prefix| - 1]) == Some(next)
    ensures !Below(s, prefix) && Below(s, prefix[..|prefix| - 1] + [next]) <==> prefix <= s
  {
    var upper := prefix[..|prefix| - 1] + [next];
    if s != "" && |prefix| > 1 {
      RangeIsPrefix(s[1..], prefix[1..], next);
      assert prefix[1..][..|prefix| - 2] + [next] == upper[1..];
      assert prefix <= s <==> prefix[0] == s[0] && prefix[1..] <= s[1..];
    } else if s != "" {
      assert upper == [next];
      assert prefix <= s <==> prefix[0] == s[0];
    }
  }

  /** The rows the vocabulary query returns, before its limit. */
  function InRange(rows: seq<Row>, low: string, high: string): seq<Row> {
    if rows == [] then []
    else
      var last := rows[|rows| - 1];
      InRange(rows[..|rows| - 1], low, high) + if !Below(last.term, low) && Below(last.term, high) then [last] else []
  }

  function WithPrefix(rows: seq<Row>, prefix: string): seq<Row> {
    if rows == [] then []
    else
      var last := rows[|rows| - 1];
      WithPrefix(rows[..|rows| - 1], prefix) + if prefix <= last.term then [last] else []
  }

  lemma {:induction false} ScanIsPrefixScan(rows: seq<Row>, prefix: string, next: char)
    requires prefix != "" && Successor(prefix[|prefix| - 1]) == Some(next)
    ensures InRange(rows, prefix, prefix[..|prefix| - 1] + [next]) == WithPrefix(rows, prefix)
  {
    if rows != [] {
      ScanIsPrefixScan(rows[..|rows| - 1], prefix, next);
      RangeIsPrefix(rows[|rows| - 1].term, prefix, next);
    }
  }

  function Limited(rows: seq<Row>): seq<Row> {
    if |rows| <= MAX_CANDIDATES then rows else rows[..MAX_CANDIDATES]
  }

  /** The first 20000 rows with the prefix, in the vocabulary's order. */
  ghost predicate Scans(rows: seq<Row>, prefix: string, scanned: seq<Row>, places: seq<int>) {
    && |places| == |scanned| <= 20000 && (forall i, j :: 0 <= i < j < |places| ==> places[i] < places[j])
    && (forall i :: 0 <= i < |places| ==>
          0 <= places[i] < |rows| && scanned[i] == rows[places[i]] && prefix <= scanned[i].term)
    && (forall k :: 0 <= k < |rows| && prefix <= rows[k].term ==>
          k in places || (|places| == 20000 && places[19999] < k))
  }

  /** All rows with the prefix, where they stand. */
  ghost predicate Found(rows: seq<Row>, prefix: string, found: seq<Row>, places: seq<int>) {
    && |places| == |found| && (forall i, j :: 0 <= i < j < |places| ==> places[i] < places[j])
    && (forall i :: 0 <= i < |places| ==>
          0 <= places[i] < |rows| && found[i] == rows[places[i]] && prefix <= found[i].term)
    && (forall k :: 0 <= k < |rows| && prefix <= rows[k].term ==> k in places)
  }

  lemma FoundOneMore(rows: seq<Row>, prefix: string, found: seq<Row>, places: seq<int>, row: Row)
    requires Found(rows, prefix, found, places)
    ensures if prefix <= row.term then Found(rows + [row], prefix, found + [row], places + [|rows|])
            else Found(rows + [row], prefix, found, places)
  {
    if prefix <= row.term {
      assert forall k :: k in places + [|rows|] <==> k in places || k == |rows|;
    }
  }

  lemma {:induction false} PlacesOf(rows: seq<Row>, prefix: string) returns (places: seq<int>)
    ensures Found(rows, prefix, WithPrefix(rows, prefix), places)
  {
    places := [];
    if rows != [] {
      var n := |rows| - 1;
      places := PlacesOf(rows[..n], prefix);
      FoundOneMore(rows[..n], prefix, WithPrefix(rows[..n], prefix), places, rows[n]);
      places := places + if prefix <= rows[n].term then [n] else [];
      assert rows[..n] + [rows[n]] == rows;
      assert WithPrefix(rows[..n], prefix) + [] == WithPrefix(rows[..n], prefix);
    }
  }

  lemma ScanIsFirstRows(rows: seq<Row>, prefix: string) returns (places: seq<int>)
    ensures Scans(rows, prefix, Limited(WithPrefix(rows, prefix)), places)
  {
    var all := PlacesOf(rows, prefix);
    places := if |all| <= 20000 then all else all[..20000];
    forall k | 0 <= k < |rows| && prefix <= rows[k].term ensures k in places
      || (|places| == 20000 && places[19999] < k) {
      var i :| 0 <= i < |all| && all[i] == k;
      assert i < |places| ==> places[i] == k;
    }
  }

  // ---------------------------------------------------------------- the choice

  function SearchPrefix(term: string): string {
    if |term| >= 5 then term[..3] else if term == "" then "" else term[..1]
  }

  function AllowedEdits(term: string): nat {
    if |term| <= 4 then 1 else MAX_EDITS
  }

  /** A scanned row is a suggestion when it is a different word within the allowed distance. */
  ghost predicate Eligible(term: string, row: Row) {
    1 <= Distance(term, row.term) <= AllowedEdits(term)
  }

  /** The tuple comparison (distance, -documents, term): closer, then commoner, then earlier in code-point order. */
  predicate Ranks(da: nat, a: Row, db: nat, b: Row) {
    da < db || (da == db && (a.documents > b.documents || (a.documents == b.documents && Below(a.term, b.term))))
  }

  ghost predicate Preferred(term: string, a: Row, b: Row) {
    Ranks(Distance(term, a.term), a, Distance(term, b.term), b)
  }

  ghost predicate IsBest(term: string, scanned: seq<Row>, best: Row) {
    best in scanned && Eligible(term, best) && forall row <- scanned :: Eligible(term, row) ==>
      !Preferred(term, row, best)
  }

  lemma PreferredTransitive(term: string, a: Row, b: Row, c: Row)
    requires Preferred(term, a, b) && Preferred(term, b, c)
    ensures Preferred(term, a, c)
  {
    if Below(a.term, b.term) && Below(b.term, c.term) {
      BelowTransitive(a.term, b.term, c.term);
    }
  }

  /** A different word, one edit away for a term of up to four characters and up to two edits for a longer one. */
  ghost predicate IsNear(term: string, row: Row) {
    1 <= Distance(term, row.term) <= if |term| <= 4 then 1 else 2
  }

  /** No edit farther, then in no fewer documents, then no later in code-point order. */
  ghost predicate NoWorse(term: string, a: Row, b: Row) {
    var da, db := Distance(term, a.term), Distance(term, b.term);
    da < db || (da == db && (a.documents > b.documents
                             || (a.documents == b.documents && (a.term == b.term || Below(a.term, b.term)))))
  }

  /** The best of the near rows, if there is one. */
  ghost predicate Chooses(term: string, scanned: seq<Row>, choice: Option<string>) {
    match choice
    case None => forall row <- scanned :: !IsNear(term, row)
    case Some(text) =>
      exists best :: best in scanned && best.term == text && IsNear(term, best) &&
        forall row <- scanned :: IsNear(term, row) ==> NoWorse(term, best, row)
  }

  /** What the rows that share a term's first characters suggest for it. */
  ghost predicate Suggests(rows: seq<Row>, term: string, choice: Option<string>)
    requires term != ""
  {
    var prefix := term[..if |term| >= 5 then 3 else 1];
    exists scanned: seq<Row>, places: seq<int> ::
      Scans(rows, prefix, scanned, places) && Chooses(term, scanned, choice)
  }

  lemma BestIsNoWorse(term: string, a: Row, b: Row)
    requires !Preferred(term, b, a)
    ensures NoWorse(term, a, b)
  {
    BelowIsTotal(a.term, b.term);
  }

  lemma BestIsSuggested(rows: seq<Row>, term: string, choice: Option<string>)
    requires term != ""
    requires var scanned := Limited(WithPrefix(rows, SearchPrefix(term)));
             match choice
             case None => forall row <- scanned :: !Eligible(term, row)
             case Some(text) => exists best :: IsBest(term, scanned, best) && best.term == text
    ensures Suggests(rows, term, choice)
  {
    var scanned := Limited(WithPrefix(rows, SearchPrefix(term)));
    var places := ScanIsFirstRows(rows, SearchPrefix(term));
    if choice.Some? {
      var best :| IsBest(term, scanned, best) && best.term == choice.value;
      forall row <- scanned | IsNear(term, row) ensures NoWorse(term, best, row) {
        BestIsNoWorse(term, best, row);
      }
      assert IsNear(term, best);
    } else {
      assert forall row :: IsNear(term, row) <==> Eligible(term, row);
    }
    assert Chooses(term, scanned, choice);
  }

  /** The scan failed because the prefix has no upper neighbour that the query could be given. */
  datatype ScanError = NoUpperBound

  method NearestTerm(vocabulary: seq<Row>, term: string) returns (r: Result<Option<string>, ScanError>)
    ensures var prefix := SearchPrefix(term);
            r.Err? <==> prefix != "" && Successor(prefix[|prefix| - 1]).None?
    ensures r.Err? <==> term != "" && term[if |term| >= 5 then 2 else 0] in {'\U{D7FF}', '\U{10FFFF}'}
    ensures term == "" ==> r == Ok(None)
    ensures term != "" && r.Ok? ==> Suggests(vocabulary, term, r.value)
    ensures term != "" && r.Ok? ==>
              var scanned := Limited(WithPrefix(vocabulary, SearchPrefix(term)));
              match r.value
              case None => forall row <- scanned :: !Eligible(term, row)
              case Some(choice) => exists best :: IsBest(term, scanned, best) && best.term == choice
  {
    var prefix := SearchPrefix(term);
    if prefix == "" {
      return Ok(None);
    }
    var allowed := AllowedEdits(term);
    var next := Successor(prefix[|prefix| - 1]);
    if next.None? {
      return Err(NoUpperBound);
    }
    var upper := prefix[..|prefix| - 1] + [next.value];
    var rows := Limited(InRange(vocabulary, prefix, upper));
    ScanIsPrefixScan(vocabulary, prefix, next.value);

    var best: Option<(nat, Row)> := None;
    for i := 0 to |rows|
      invariant best.None? ==> forall row <- rows[..i] :: !Eligible(term, row)
      invariant best.Some? ==>
                best.value.0 == Distance(term, best.value.1.term) && IsBest(term, rows[..i], best.value.1)
    {
      var candidate := rows[i];
      assert rows[..i + 1] == rows[..i] + [candidate];
      var distance := BoundedEditDistance(term, candidate.term, allowed);
      if distance.None? || distance.value == 0 {
        continue;
      }
      if best.None? || Ranks(distance.value, candidate, best.value.0, best.value.1) {
        forall row <- rows[..i + 1] | Eligible(term, row) ensures !Preferred(term, row, candidate) {
          BelowIrreflexive(candidate.term);
          if best.Some? && Preferred(term, row, candidate) {
            PreferredTransitive(term, row, candidate, best.value.1);
          }
        }
        best := Some((distance.value, candidate));
      }
    }
    assert rows[..|rows|] == rows;
    if best.None? {
      BestIsSuggested(vocabulary, term, None);
      return Ok(None);
    }
    assert IsBest(term, rows, best.value.1);
    BestIsSuggested(vocabulary, term, Some(best.value.1.term));
    return Ok(Some(best.value.1.term));
  }
}
