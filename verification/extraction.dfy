/**
 Email extraction from the parsed CSV rows: every cell of every row, in row
 order and then column order, is tested with the email pattern, and each
 matching cell (the whole cell text, not the matched part) is added to a
 JavaScript `Set`. A `Set` keeps its elements in first-insertion order and
 ignores an element it already holds, so it is modelled as a sequence without
 duplicates, and `Set.prototype.add` as `SetAdd`.

 The reference definition is the composition flatten, filter, deduplicate:
 `Extracted(rows) == Dedup(Matching(Flatten(rows)))`.
 */
module Extraction {

  import opened EmailPattern

  /** The cells of all rows, row after row. */
  function Flatten(rows: seq<seq<string>>): seq<string>
  {
    if rows == [] then [] else Flatten(rows[..|rows| - 1]) + rows[|rows| - 1]
  }

  /** The cells that contain an email-like match, in their original order. */
  function Matching(cells: seq<string>): seq<string>
  {
    if cells == [] then []
    else
      var last := cells[|cells| - 1];
      Matching(cells[..|cells| - 1]) + (if ContainsEmailLike(last) then [last] else [])
  }

  /** `Set.prototype.add` on an insertion-ordered set (its meaning is `SetAddInserts`). */
  function SetAdd(xs: seq<string>, x: string): seq<string>
  {
    if x in xs then xs else xs + [x]
  }

  /**
   Adding to the set: afterwards x is present, nothing else is added, the
   earlier elements keep their places, at most one element is added, and a
   set without repeats stays without repeats.
   */
  lemma SetAddInserts(xs: seq<string>, x: string)
    ensures var r := SetAdd(xs, x);
      && x in r
      && (forall y :: y in r <==> y in xs || y == x)
      && |xs| <= |r| <= |xs| + 1 && r[..|xs|] == xs
      && (Distinct(xs) ==> Distinct(r))
  {
    if x !in xs {
      assert (xs + [x])[..|xs|] == xs;
    }
  }

  /** The JavaScript `Set` built by adding the elements of xs one by one. */
  function Dedup(xs: seq<string>): seq<string>
  {
    if xs == [] then [] else SetAdd(Dedup(xs[..|xs| - 1]), xs[|xs| - 1])
  }

  /**
   The emails the upload handler collects from the parsed rows
   (`ExtractedExactly` and `ExtractedDistinct` state what they are).
   */
  function Extracted(rows: seq<seq<string>>): seq<string>
  {
    Dedup(Matching(Flatten(rows)))
  }

  /** No value occurs twice. */
  predicate Distinct(xs: seq<string>)
  {
    forall i, j | 0 <= i < j < |xs| :: xs[i] != xs[j]
  }

  /** Some row holds x in some column. */
  ghost predicate OccursIn(rows: seq<seq<string>>, x: string)
  {
    exists r, c | 0 <= r < |rows| && 0 <= c < |rows[r]| :: rows[r][c] == x
  }

  /** The distinct matching cells as a mathematical set. */
  ghost function MatchingCellSet(rows: seq<seq<string>>): set<string>
  {
    set r, c | 0 <= r < |rows| && 0 <= c < |rows[r]| && ContainsEmailLike(rows[r][c]) :: rows[r][c]
  }

  /**
   The nested loop of the handler. After it, `emails` is exactly the set the
   handler builds, in the order the handler's `Set` holds it.
   */
  method ExtractEmails(rows: seq<seq<string>>) returns (emails: seq<string>)
    ensures emails == Extracted(rows)
    ensures Distinct(emails)
    ensures forall x :: x in emails <==> ContainsEmailLike(x) && OccursIn(rows, x)
  {
    emails := [];
    ghost var visited: seq<string> := [];
    for i := 0 to |rows|
      invariant visited == Flatten(rows[..i])
      invariant emails == Dedup(Matching(visited))
    {
      var row := rows[i];
      FlattenStep(rows, i);
      ghost var start := visited;
      for j := 0 to |row|
        invariant visited == start + row[..j]
        invariant emails == Dedup(Matching(visited))
      {
        var cell := row[j];
        AppendOne(visited, cell);
        PrefixStep(start, row, j);
        visited := visited + [cell];
        if ContainsEmailLike(cell) {
          emails := SetAdd(emails, cell);
        }
      }
      assert start + row[..|row|] == start + row by { assert row[..|row|] == row; }
    }
    assert rows[..|rows|] == rows;
    ExtractedDistinct(rows);
    forall x ensures x in emails <==> ContainsEmailLike(x) && OccursIn(rows, x) {
      ExtractedExactly(rows, x);
    }
  }

  /** One more cell of a row: the cells visited so far grow by it. */
  lemma PrefixStep(start: seq<string>, row: seq<string>, j: int)
    requires 0 <= j < |row|
    ensures start + row[..j + 1] == start + row[..j] + [row[j]]
  {
    assert row[..j + 1] == row[..j] + [row[j]];
  }

  /** One more row: its cells follow those of the rows before it. */
  lemma FlattenStep(rows: seq<seq<string>>, i: int)
    requires 0 <= i < |rows|
    ensures Flatten(rows[..i + 1]) == Flatten(rows[..i]) + rows[i]
  {
    assert rows[..i + 1][..i] == rows[..i];
  }

  /** One more cell: the filter and the set grow by at most that cell. */
  lemma AppendOne(cells: seq<string>, cell: string)
    ensures Matching(cells + [cell]) == Matching(cells) + (if ContainsEmailLike(cell) then [cell] else [])
    ensures Dedup(Matching(cells + [cell]))
         == if ContainsEmailLike(cell) then SetAdd(Dedup(Matching(cells)), cell) else Dedup(Matching(cells))
  {
    assert (cells + [cell])[..|cells|] == cells;
    var m := Matching(cells);
    if ContainsEmailLike(cell) {
      assert (m + [cell])[..|m|] == m;
    } else {
      assert m + [] == m;
    }
  }

  /** The set holds each value once and holds exactly the values added to it. */
  lemma {:induction false} DedupIsSetOf(xs: seq<string>)
    ensures Distinct(Dedup(xs))
    ensures forall x :: x in Dedup(xs) <==> x in xs
  {
    if xs != [] {
      var init := xs[..|xs| - 1];
      DedupIsSetOf(init);
      assert xs == init + [xs[|xs| - 1]];
    }
  }

  /** The filter keeps exactly the matching cells. */
  lemma {:induction false} MatchingKeepsMatches(cells: seq<string>)
    ensures forall x :: x in Matching(cells) <==> x in cells && ContainsEmailLike(x)
  {
    if cells != [] {
      var init := cells[..|cells| - 1];
      MatchingKeepsMatches(init);
      assert cells == init + [cells[|cells| - 1]];
    }
  }

  /** Flattening keeps every cell of every row, and nothing else. */
  lemma {:induction false} FlattenHoldsEveryCell(rows: seq<seq<string>>)
    ensures forall x :: x in Flatten(rows) <==> OccursIn(rows, x)
  {
    if rows != [] {
      var init := rows[..|rows| - 1];
      var last := rows[|rows| - 1];
      FlattenHoldsEveryCell(init);
      forall x ensures x in Flatten(rows) <==> OccursIn(rows, x) {
        if x in Flatten(init) {
          var r, c :| 0 <= r < |init| && 0 <= c < |init[r]| && init[r][c] == x;
          assert rows[r][c] == x;
        } else if x in last {
          var c :| 0 <= c < |last| && last[c] == x;
          assert rows[|rows| - 1][c] == x;
        }
        if OccursIn(rows, x) {
          var r, c :| 0 <= r < |rows| && 0 <= c < |rows[r]| && rows[r][c] == x;
          if r < |rows| - 1 {
            assert init[r][c] == x;
            assert OccursIn(init, x);
          } else {
            assert last[c] == x;
          }
        }
      }
    }
  }

  /**
   The extracted emails are exactly the cells, in any row and any column,
   that the pattern accepts. No column or header is singled out.
   */
  lemma ExtractedExactly(rows: seq<seq<string>>, x: string)
    ensures x in Extracted(rows) <==> ContainsEmailLike(x) && OccursIn(rows, x)
  {
    DedupIsSetOf(Matching(Flatten(rows)));
    MatchingKeepsMatches(Flatten(rows));
    FlattenHoldsEveryCell(rows);
  }

  /** No email is collected twice, and every collected email is a cell the pattern accepts. */
  lemma ExtractedDistinct(rows: seq<seq<string>>)
    ensures Distinct(Extracted(rows))
    ensures forall x | x in Extracted(rows) :: ContainsEmailLike(x)
  {
    DedupIsSetOf(Matching(Flatten(rows)));
    MatchingKeepsMatches(Flatten(rows));
  }

  /** A sequence without duplicates has as many elements as the set of its elements. */
  lemma {:induction false} DistinctCardinality(xs: seq<string>)
    requires Distinct(xs)
    ensures |set x | x in xs| == |xs|
  {
    if xs != [] {
      var init := xs[..|xs| - 1];
      var last := xs[|xs| - 1];
      assert Distinct(init);
      DistinctCardinality(init);
      assert last !in init;
      assert (set x | x in xs) == (set x | x in init) + {last};
    }
  }

  /** The number of extracted emails is the number of distinct matching cells. */
  lemma ExtractedCountIsDistinctMatches(rows: seq<seq<string>>)
    ensures |Extracted(rows)| == |MatchingCellSet(rows)|
  {
    var e := Extracted(rows);
    ExtractedDistinct(rows);
    DistinctCardinality(e);
    forall x ensures x in e <==> x in MatchingCellSet(rows) {
      ExtractedExactly(rows, x);
    }
    assert (set x | x in e) == MatchingCellSet(rows);
  }

  /** Nothing is extracted exactly when no cell anywhere matches. */
  lemma NothingExtractedIffNoMatch(rows: seq<seq<string>>)
    ensures Extracted(rows) == [] <==>
            forall r, c | 0 <= r < |rows| && 0 <= c < |rows[r]| :: !ContainsEmailLike(rows[r][c])
  {
    var e := Extracted(rows);
    if e != [] {
      ExtractedExactly(rows, e[0]);
    }
    forall r, c | 0 <= r < |rows| && 0 <= c < |rows[r]| && ContainsEmailLike(rows[r][c])
      ensures e != []
    {
      ExtractedExactly(rows, rows[r][c]);
    }
  }

  /** The cells of two rows are those of the first row, then those of the second. */
  lemma FlattenTwoRows(first: seq<string>, second: seq<string>)
    ensures Flatten([first]) == first
    ensures Flatten([first, second]) == first + second
  {
    var rows := [first, second];
    FlattenStep(rows, 0);
    FlattenStep(rows, 1);
    assert rows[..0] == [] && rows[..1] == [first] && rows[..2] == rows;
  }

  /** When every cell matches, the filter keeps them all. */
  lemma {:induction false} MatchingAllMatch(cells: seq<string>)
    requires forall k | 0 <= k < |cells| :: ContainsEmailLike(cells[k])
    ensures Matching(cells) == cells
  {
    if cells != [] {
      var init := cells[..|cells| - 1];
      MatchingAllMatch(init);
      assert cells == init + [cells[|cells| - 1]];
    }
  }

  /** A row with one non-matching and one matching cell yields exactly the matching cell. */
  lemma OneMatchingCell(other: string, cell: string)
    requires ContainsEmailLike(cell) && !ContainsEmailLike(other)
    ensures Extracted([[other, cell]]) == [cell]
  {
    FlattenTwoRows([other, cell], []);
    AppendOne([], other);
    AppendOne([other], cell);
    assert [] + [other] == [other] && [other] + [cell] == [other, cell];
    assert Dedup([cell]) == [cell] by { assert [cell][..0] == []; }
  }

  /**
   A cell holding text before an address is collected whole, not cut down
   to the address; a neighbouring cell without a match adds nothing.
   */
  lemma WholeCellIsExtracted(other: string, prefix: string, address: string)
    requires ContainsEmailLike(address) && !ContainsEmailLike(other)
    ensures Extracted([[other, prefix + address]]) == [prefix + address]
  {
    MatchSurvivesSurroundingText(prefix, address, "");
    assert prefix + address + "" == prefix + address;
    OneMatchingCell(other, prefix + address);
  }

  /** Adding a value, the same value again, then another value leaves two elements in first-seen order. */
  lemma RepeatCollapses(a: string, x: string)
    requires a != x
    ensures Dedup([a, a, x]) == [a, x]
  {
    assert Dedup([a]) == [a] by { assert [a][..0] == []; }
    assert Dedup([a, a]) == [a] by { assert [a, a][..1] == [a]; }
    assert [a, a, x][..2] == [a, a];
  }

  /** A matching cell repeated in another row yields one email; a different matching cell yields a second. */
  lemma DuplicateCellsCollapse(a: string, x: string)
    requires ContainsEmailLike(a) && ContainsEmailLike(x) && a != x
    ensures Extracted([[a], [a, x]]) == [a, x]
  {
    FlattenTwoRows([a], [a, x]);
    assert [a] + [a, x] == [a, a, x];
    MatchingAllMatch([a, a, x]);
    RepeatCollapses(a, x);
  }
}
