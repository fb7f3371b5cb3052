/**
 * The photo-search matcher of app.py: one pass over the stored person rows
 * that keeps every row whose similarity to the query embedding reaches the
 * strictness threshold, in scan order, without sorting, and drops the
 * embedding from what it keeps.
 *
 * The similarity (cosine similarity of the query embedding and the decoded
 * stored blob) is not modelled: it is an arbitrary function `score` into the
 * reals, and every property below holds for any such function.
 */
module Matcher {
  import opened Wrappers
  import opened Seqs

  /** One row of the store scan: eight record fields and the stored embedding blob `B`. */
  datatype PersonRow<B> = PersonRow(
    id: int, name: string, age: int, gender: string, photoPath: string, loc: string,
    gpsLat: Option<real>, gpsLon: Option<real>, embedding: B)

  /** One match: the same eight fields, without the embedding. */
  datatype MatchRow = MatchRow(
    id: int, name: string, age: int, gender: string, photoPath: string, loc: string,
    gpsLat: Option<real>, gpsLon: Option<real>)

  /** A match with an embedding attached again: the row it would have come from. */
  function WithEmbedding<B>(m: MatchRow, embedding: B): PersonRow<B> {
    PersonRow(m.id, m.name, m.age, m.gender, m.photoPath, m.loc, m.gpsLat, m.gpsLon, embedding)
  }

  /** The tuple appended for a kept row: the row without its embedding, and nothing else lost. */
  function Summarize<B>(row: PersonRow<B>): (m: MatchRow)
    ensures WithEmbedding(m, row.embedding) == row
  {
    MatchRow(row.id, row.name, row.age, row.gender, row.photoPath, row.loc, row.gpsLat, row.gpsLon)
  }

  /** A row is kept when its score against the query reaches the threshold. */
  predicate Reaches<Q, B>(query: Q, score: (Q, B) -> real, strict: real, row: PersonRow<B>) {
    score(query, row.embedding) >= strict
  }

  /** The matches for `query` at threshold `strict`, in scan order. */
  function Matches<Q, B>(rows: seq<PersonRow<B>>, query: Q, score: (Q, B) -> real, strict: real): (ms: seq<MatchRow>)
    ensures |ms| <= |rows|
  {
    FilterMap(rows, row => Reaches(query, score, strict, row), Summarize)
  }

  /** The scan loop: append every row whose score is at least `strict`. */
  method FindMatches<Q, B>(rows: seq<PersonRow<B>>, query: Q, score: (Q, B) -> real, strict: real)
    returns (matches: seq<MatchRow>)
    ensures matches == Matches(rows, query, score, strict)
  {
    matches := [];
    for i := 0 to |rows|
      invariant matches == Matches(rows[..i], query, score, strict)
    {
      var row := rows[i];
      if score(query, row.embedding) >= strict {
        matches := matches + [MatchRow(row.id, row.name, row.age, row.gender, row.photoPath, row.loc, row.gpsLat, row.gpsLon)];
      }
      assert rows[..i + 1][..i] == rows[..i];
    }
    assert rows[..|rows|] == rows;
  }

  /** A match is produced exactly when some row reaching the threshold carries its eight fields. */
  lemma MatchesMembership<Q, B>(rows: seq<PersonRow<B>>, query: Q, score: (Q, B) -> real, strict: real, m: MatchRow)
    ensures m in Matches(rows, query, score, strict) <==>
      exists i ::
        && 0 <= i < |rows|
        && score(query, rows[i].embedding) >= strict
        && m == MatchRow(rows[i].id, rows[i].name, rows[i].age, rows[i].gender,
                         rows[i].photoPath, rows[i].loc, rows[i].gpsLat, rows[i].gpsLon)
  {
    FilterMapMembership(rows, row => Reaches(query, score, strict, row), Summarize, m);
  }

  /** Ids identify rows in the store. */
  ghost predicate DistinctIds<B>(rows: seq<PersonRow<B>>) {
    forall i, j :: 0 <= i < j < |rows| ==> rows[i].id != rows[j].id
  }

  /** When ids are distinct, a row is reported if and only if its score reaches the threshold. */
  lemma ReportedIffReachesThreshold<Q, B>(rows: seq<PersonRow<B>>, query: Q, score: (Q, B) -> real, strict: real, i: int)
    requires DistinctIds(rows) && 0 <= i < |rows|
    ensures Summarize(rows[i]) in Matches(rows, query, score, strict) <==> score(query, rows[i].embedding) >= strict
  {
    MatchesMembership(rows, query, score, strict, Summarize(rows[i]));
    if Summarize(rows[i]) in Matches(rows, query, score, strict) {
      var j :| 0 <= j < |rows| && score(query, rows[j].embedding) >= strict && Summarize(rows[i]) == Summarize(rows[j]);
      assert rows[i].id == Summarize(rows[i]).id == Summarize(rows[j]).id == rows[j].id;
      assert i == j;
    }
  }

  /** "No match" is an empty result, and happens exactly when no row reaches the threshold. */
  lemma EmptyIffNoRowReaches<Q, B>(rows: seq<PersonRow<B>>, query: Q, score: (Q, B) -> real, strict: real)
    ensures Matches(rows, query, score, strict) == [] <==>
      forall i :: 0 <= i < |rows| ==> score(query, rows[i].embedding) < strict
  {
    var ms := Matches(rows, query, score, strict);
    if ms != [] {
      MatchesMembership(rows, query, score, strict, ms[0]);
    }
    if exists i :: 0 <= i < |rows| && score(query, rows[i].embedding) >= strict {
      var i :| 0 <= i < |rows| && score(query, rows[i].embedding) >= strict;
      MatchesMembership(rows, query, score, strict, Summarize(rows[i]));
    }
  }

  /** The matches come in scan order: no sorting, no reordering. */
  lemma MatchesInScanOrder<Q, B>(rows: seq<PersonRow<B>>, query: Q, score: (Q, B) -> real, strict: real)
    ensures IsSubsequence(Matches(rows, query, score, strict), Map(rows, Summarize))
  {
    FilterMapIsSubsequence(rows, row => Reaches(query, score, strict, row), Summarize);
  }

  /** Raising the threshold only removes matches: the stricter result is a subsequence of the looser one. */
  lemma ThresholdMonotone<Q, B>(rows: seq<PersonRow<B>>, query: Q, score: (Q, B) -> real, t1: real, t2: real)
    requires t1 <= t2
    ensures IsSubsequence(Matches(rows, query, score, t2), Matches(rows, query, score, t1))
  {
    FilterMapNarrower(rows, row => Reaches(query, score, t1, row), row => Reaches(query, score, t2, row), Summarize);
  }

  /** Three rows scoring 0.5, 0.2 and 0.4 at threshold 0.33: the first and the third, in that order. */
  lemma ThreeRowExample(a: PersonRow<real>, b: PersonRow<real>, c: PersonRow<real>)
    requires a.embedding == 0.5 && b.embedding == 0.2 && c.embedding == 0.4
    ensures Matches([a, b, c], 0.0, (q: real, e: real) => e, 0.33) == [Summarize(a), Summarize(c)]
  {
    var score := (q: real, e: real) => e;
    var keep := row => Reaches(0.0, score, 0.33, row);
    var rows := [a, b, c];
    assert rows[..2] == [a, b] && rows[..2][..1] == [a] && rows[..2][..1][..0] == [];
    assert FilterMap([a], keep, Summarize) == [Summarize(a)];
    assert FilterMap([a, b], keep, Summarize) == [Summarize(a)];
    assert FilterMap(rows, keep, Summarize) == [Summarize(a), Summarize(c)];
  }
}
