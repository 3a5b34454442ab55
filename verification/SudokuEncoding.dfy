/**
 A board as an exact-cover problem: one column per empty cell and per value missing from a row, column or
 box; one matrix row per value that an empty cell may still take.
 */
module SudokuEncoding {
  import opened DancingLinks
  import opened ExactCover
  import opened SudokuSearch
  import opened SudokuRules

  // Some cell of the unit is given as `v`.
  ghost predicate Given(b: seq<int>, kind: int, u: int, v: int) {
    exists i: nat :: i < CELLS && i < |b| && 0 <= kind < 3 && UnitOf(kind, i) == u && b[i] == v
  }

  // The name of the column "unit u of this kind holds v": get_row_col, get_col_col and get_box_col.
  function UnitName(kind: int, u: int, v: int): int {
    100 * (kind + 1) + 10 * u + v
  }

  ghost predicate IsName(b: seq<int>, name: int) {
    || (0 <= name < CELLS && name < |b| && b[name] == 0)
    || exists kind, u, v :: IsUnitName(b, name, kind, u, v)
  }

  ghost predicate IsUnitName(b: seq<int>, name: int, kind: int, u: int, v: int) {
    0 <= kind < 3 && 0 <= u < 9 && 1 <= v <= 9 && name == UnitName(kind, u, v) && !Given(b, kind, u, v)
  }

  ghost predicate Candidate(b: seq<int>, i: int, v: int) {
    && 0 <= i < CELLS && i < |b| && b[i] == 0 && 1 <= v <= 9
    && forall kind :: 0 <= kind < 3 ==> !Given(b, kind, UnitOf(kind, i), v)
  }

  // `name` is one of the four columns of "cell i holds v".
  ghost predicate InEntry(i: int, v: int, name: int) {
    0 <= i < CELLS && (name == i || exists kind :: 0 <= kind < 3 && name == UnitName(kind, UnitOf(kind, i), v))
  }

  // Node `n` is in a matrix row that stands for a candidate of the board.
  ghost predicate RowStands(m: Matrix, at: map<int, nat>, b: seq<int>, n: nat) {
    && ValidMatrix(m) && n in m.others
    && var (i, v) := Entry(m, n);
      Candidate(b, i, v) && forall name :: name in at ==> (at[name] in RowCols(m, n) <==> InEntry(i, v, name))
  }

  ghost predicate HasRow(m: Matrix, i: int, v: int) {
    ValidMatrix(m) && exists n :: n in m.others && Entry(m, n) == (i, v)
  }

  // `at` gives the header of each column name.
  ghost predicate NamesHeaders(m: Matrix, at: map<int, nat>) {
    && (forall name :: name in at ==> at[name] in m.cols)
    && (forall x, y :: x in at && y in at && x != y ==> at[x] != at[y])
    && forall c :: c in m.cols ==> exists name :: name in at && at[name] == c
  }

  ghost predicate Encodes(m: Matrix, at: map<int, nat>, b: seq<int>) {
    && IsBoard(b) && ValidMatrix(m) && NamesHeaders(m, at)
    && (forall name :: name in at <==> IsName(b, name))
    && (forall n :: n in m.others ==> RowStands(m, at, b, n))
    && forall i, v :: Candidate(b, i, v) ==> HasRow(m, i, v)
  }

  lemma UnitNameUnique(kind: int, u: int, v: int, kind': int, u': int, v': int)
    requires 0 <= kind < 3 && 0 <= u < 9 && 1 <= v <= 9
    requires 0 <= kind' < 3 && 0 <= u' < 9 && 1 <= v' <= 9
    requires UnitName(kind, u, v) == UnitName(kind', u', v')
    ensures kind == kind' && u == u' && v == v'
  {
  }

  lemma EncodingReadable(m: Matrix, at: map<int, nat>, b: seq<int>)
    requires Encodes(m, at, b)
    ensures Readable(m, CELLS)
  {
    forall n | n in m.others ensures 0 <= Entry(m, n).0 < CELLS && Entry(m, n).1 != -1 {
      assert RowStands(m, at, b, n);
    }
  }

  // ---------- From an exact cover to a completed board ----------

  // The rows of a cover fill different cells.
  lemma CellsDiffer(m: Matrix, at: map<int, nat>, b: seq<int>, xs: seq<nat>, k: nat, l: nat)
    requires Encodes(m, at, b) && IsExactCover(m, m.cols, xs) && k < l < |xs|
    ensures Entry(m, xs[k]).0 != Entry(m, xs[l]).0
  {
    assert RowStands(m, at, b, xs[k]) && RowStands(m, at, b, xs[l]);
    var i := Entry(m, xs[k]).0;
    assert IsName(b, i);
    assert InEntry(i, Entry(m, xs[k]).1, i) && InEntry(i, Entry(m, xs[l]).1, i);
    assert at[i] in RowCols(m, xs[k]);
  }

  lemma {:induction false} WriteAllSkips(m: Matrix, b: seq<int>, xs: seq<nat>, i: nat)
    requires Readable(m, |b|) && AllRows(m, xs) && i < |b|
    requires forall k :: 0 <= k < |xs| ==> Entry(m, xs[k]).0 != i
    ensures WriteAll(m, b, xs)[i] == b[i]
  {
    hide Entry;
    if xs != [] {
      WriteAllSkips(m, b, xs[..|xs| - 1], i);
    }
  }

  lemma {:induction false} WriteAllAt(m: Matrix, b: seq<int>, xs: seq<nat>, k: nat)
    requires Readable(m, |b|) && AllRows(m, xs) && k < |xs|
    requires forall h, l :: 0 <= h < l < |xs| ==> Entry(m, xs[h]).0 != Entry(m, xs[l]).0
    ensures WriteAll(m, b, xs)[Entry(m, xs[k]).0] == Entry(m, xs[k]).1
  {
    hide Entry;
    if k < |xs| - 1 {
      WriteAllAt(m, b, xs[..|xs| - 1], k);
    }
  }

  // The row of the cover that hits the column called `name`.
  lemma HitBy(m: Matrix, at: map<int, nat>, b: seq<int>, xs: seq<nat>, name: int) returns (k: nat)
    requires Encodes(m, at, b) && IsExactCover(m, m.cols, xs) && IsName(b, name)
    ensures k < |xs| && xs[k] in m.others
    ensures Candidate(b, Entry(m, xs[k]).0, Entry(m, xs[k]).1)
    ensures InEntry(Entry(m, xs[k]).0, Entry(m, xs[k]).1, name)
  {
    assert at[name] in m.cols;
    assert Hits(m, xs, at[name]);
    k :| 0 <= k < |xs| && xs[k] in m.others && at[name] in RowCols(m, xs[k]);
    assert RowStands(m, at, b, xs[k]);
  }

  lemma CoverWrites(m: Matrix, at: map<int, nat>, b: seq<int>, xs: seq<nat>, k: nat)
    requires Encodes(m, at, b) && IsExactCover(m, m.cols, xs) && Readable(m, CELLS) && AllRows(m, xs) && k < |xs|
    ensures WriteAll(m, b, xs)[Entry(m, xs[k]).0] == Entry(m, xs[k]).1
  {
    forall h, l | 0 <= h < l < |xs| ensures Entry(m, xs[h]).0 != Entry(m, xs[l]).0 {
      CellsDiffer(m, at, b, xs, h, l);
    }
    WriteAllAt(m, b, xs, k);
  }

  lemma EntryInUnit(i: nat, v': int, kind: int, u: nat, v: int)
    requires i < CELLS && 0 <= kind < 3 && u < 9 && 1 <= v <= 9 && 1 <= v' <= 9
    requires InEntry(i, v', UnitName(kind, u, v))
    ensures UnitOf(kind, i) == u && v' == v
  {
    var kind' :| 0 <= kind' < 3 && UnitName(kind, u, v) == UnitName(kind', UnitOf(kind', i), v');
    UnitNameUnique(kind, u, v, kind', UnitOf(kind', i), v');
  }

  lemma UnitShows(g: seq<int>, kind: int, i: nat)
    requires |g| == CELLS && 0 <= kind < 3 && i < CELLS
    ensures g[i] in UnitValues(g, kind, UnitOf(kind, i))
  {
    UnitCellAt(kind, i);
    assert UnitValues(g, kind, UnitOf(kind, i))[PlaceOf(kind, i)] == g[i];
  }

  // Every unit of the board that a cover writes shows every value.
  lemma CoverShows(m: Matrix, at: map<int, nat>, b: seq<int>, xs: seq<nat>, kind: int, u: nat, v: int)
    requires Encodes(m, at, b) && IsExactCover(m, m.cols, xs) && Readable(m, CELLS) && AllRows(m, xs)
    requires 0 <= kind < 3 && u < 9 && 1 <= v <= 9
    requires Extends(WriteAll(m, b, xs), b)
    ensures v in UnitValues(WriteAll(m, b, xs), kind, u)
  {
    var g := WriteAll(m, b, xs);
    assert IsBoard(b);
    hide Encodes, IsExactCover, Readable, WriteAll, UnitValues, Entry, InEntry, UnitOf, UnitName;
    if Given(b, kind, u, v) {
      var i: nat :| i < CELLS && UnitOf(kind, i) == u && b[i] == v;
      assert g[i] == v;
      UnitShows(g, kind, i);
    } else {
      assert IsUnitName(b, UnitName(kind, u, v), kind, u, v);
      var k := HitBy(m, at, b, xs, UnitName(kind, u, v));
      var i := Entry(m, xs[k]).0;
      EntryInUnit(i, Entry(m, xs[k]).1, kind, u, v);
      CoverWrites(m, at, b, xs, k);
      UnitShows(g, kind, i);
    }
  }

  lemma CoverKeepsGivens(m: Matrix, at: map<int, nat>, b: seq<int>, xs: seq<nat>)
    requires Encodes(m, at, b) && AllRows(m, xs) && Readable(m, CELLS)
    ensures Extends(WriteAll(m, b, xs), b)
  {
    forall i: nat | i < CELLS && b[i] != 0 ensures WriteAll(m, b, xs)[i] == b[i] {
      forall k | 0 <= k < |xs| ensures Entry(m, xs[k]).0 != i {
        assert RowStands(m, at, b, xs[k]);
      }
      WriteAllSkips(m, b, xs, i);
    }
  }

  // Writing an exact cover on the board completes it.
  lemma CoverCompletes(m: Matrix, at: map<int, nat>, b: seq<int>, xs: seq<nat>)
    requires Encodes(m, at, b) && IsExactCover(m, m.cols, xs) && Readable(m, CELLS) && AllRows(m, xs)
    ensures Complete(WriteAll(m, b, xs)) && Extends(WriteAll(m, b, xs), b)
  {
    CoverKeepsGivens(m, at, b, xs);
    var g := WriteAll(m, b, xs);
    hide Encodes, IsExactCover, Readable, WriteAll, UnitValues;
    forall kind, u, v | 0 <= kind < 3 && 0 <= u < 9 && 1 <= v <= 9 ensures v in UnitValues(g, kind, u) {
      CoverShows(m, at, b, xs, kind, u, v);
    }
    UnitsHaveAll(g);
  }

  // ---------- From a completed board to an exact cover ----------

  lemma SolutionCandidate(b: seq<int>, g: seq<int>, i: nat)
    requires IsBoard(b) && Complete(g) && Extends(g, b) && i < CELLS && b[i] == 0
    ensures Candidate(b, i, g[i])
  {
    var s := UnitValues(g, 0, UnitOf(0, i));
    UnitCellAt(0, i);
    assert s[PlaceOf(0, i)] == g[i] && IsPermutation(s);
    forall kind | 0 <= kind < 3 ensures !Given(b, kind, UnitOf(kind, i), g[i]) {
      if Given(b, kind, UnitOf(kind, i), g[i]) {
        var j: nat :| j < CELLS && UnitOf(kind, j) == UnitOf(kind, i) && b[j] == g[i];
        CompleteUnit(g, kind, i, j);
        assert false;
      }
    }
  }

  // Rows that stand for the entries of `g` in the empty cells below `k`, in the order of the cells.
  ghost predicate PicksBelow(m: Matrix, b: seq<int>, g: seq<int>, k: nat, xs: seq<nat>) {
    && (forall j :: 0 <= j < |xs| ==> Picked(m, b, g, k, xs[j]))
    && Increasing(m, xs)
    && forall i :: 0 <= i < k && i < |b| && b[i] == 0 ==> PickOf(m, xs, i)
  }

  lemma {:induction false} Picks(m: Matrix, b: seq<int>, g: seq<int>, k: nat) returns (xs: seq<nat>)
    requires k <= |b| == |g|
    requires forall i :: 0 <= i < k && b[i] == 0 ==> HasRow(m, i, g[i])
    ensures PicksBelow(m, b, g, k, xs)
  {
    hide ValidMatrix, Entry, Picked, Increasing;
    if k == 0 {
      xs := [];
      NoPicks(m);
    } else {
      xs := Picks(m, b, g, k - 1);
      if b[k - 1] == 0 {
        assert HasRow(m, k - 1, g[k - 1]);
        var n :| n in m.others && Entry(m, n) == (k - 1, g[k - 1]);
        PicksSnoc(m, b, g, k, xs, n);
        xs := xs + [n];
      } else {
        PicksSkip(m, b, g, k, xs);
      }
    }
  }

  lemma NoPicks(m: Matrix)
    ensures Increasing(m, [])
  {
  }

  lemma PicksSkip(m: Matrix, b: seq<int>, g: seq<int>, k: nat, xs: seq<nat>)
    requires 0 < k <= |b| == |g| && b[k - 1] != 0 && PicksBelow(m, b, g, k - 1, xs)
    ensures PicksBelow(m, b, g, k, xs)
  {
    hide ValidMatrix, Entry, Increasing;
    assert forall j :: 0 <= j < |xs| ==> Picked(m, b, g, k, xs[j]);
  }

  lemma PicksSnoc(m: Matrix, b: seq<int>, g: seq<int>, k: nat, xs: seq<nat>, n: nat)
    requires 0 < k <= |b| == |g| && b[k - 1] == 0 && PicksBelow(m, b, g, k - 1, xs)
    requires ValidMatrix(m) && n in m.others && Entry(m, n) == (k - 1, g[k - 1])
    ensures PicksBelow(m, b, g, k, xs + [n])
  {
    hide ValidMatrix, Entry;
    var ys := xs + [n];
    forall j | 0 <= j < |ys| ensures Picked(m, b, g, k, ys[j]) {
      assert j < |xs| ==> Picked(m, b, g, k - 1, xs[j]);
    }
    forall i, j | 0 <= i < j < |ys| ensures Entry(m, ys[i]).0 < Entry(m, ys[j]).0 {
      assert i < |xs| ==> Picked(m, b, g, k - 1, xs[i]);
    }
    forall i | 0 <= i < k && b[i] == 0 ensures PickOf(m, ys, i) {
      if i < k - 1 {
        var j :| 0 <= j < |xs| && xs[j] in m.others && Entry(m, xs[j]).0 == i;
        assert ys[j] == xs[j];
      } else {
        assert ys[|xs|] == n;
      }
    }
  }

  ghost predicate Increasing(m: Matrix, xs: seq<nat>) {
    forall i, j :: 0 <= i < j < |xs| ==>
      ValidMatrix(m) && xs[i] in m.others && xs[j] in m.others && Entry(m, xs[i]).0 < Entry(m, xs[j]).0
  }

  ghost predicate Picked(m: Matrix, b: seq<int>, g: seq<int>, k: nat, n: nat) {
    && ValidMatrix(m) && n in m.others
    && var (i, v) := Entry(m, n);
      0 <= i < k && i < |b| == |g| && b[i] == 0 && v == g[i]
  }

  ghost predicate PickOf(m: Matrix, xs: seq<nat>, i: int) {
    ValidMatrix(m) && exists j :: 0 <= j < |xs| && xs[j] in m.others && Entry(m, xs[j]).0 == i
  }

  // Entries of a completed board for different cells share no column.
  lemma EntriesDisjoint(g: seq<int>, i: nat, j: nat, name: int)
    requires Complete(g) && i < CELLS && j < CELLS && i != j && 1 <= g[i] <= 9 && 1 <= g[j] <= 9
    ensures !InEntry(i, g[i], name) || !InEntry(j, g[j], name)
  {
    if InEntry(i, g[i], name) && InEntry(j, g[j], name) && name >= 100 {
      var kind :| 0 <= kind < 3 && name == UnitName(kind, UnitOf(kind, i), g[i]);
      EntryInUnit(j, g[j], kind, UnitOf(kind, i), g[i]);
      CompleteUnit(g, kind, i, j);
    }
  }

  // The completed board puts some empty cell's entry in the column called `name`.
  lemma SolutionHits(b: seq<int>, g: seq<int>, name: int) returns (i: nat)
    requires IsBoard(b) && Complete(g) && Extends(g, b) && IsName(b, name)
    ensures i < CELLS && b[i] == 0 && InEntry(i, g[i], name)
  {
    if 0 <= name < CELLS && b[name] == 0 {
      i := name;
    } else {
      var kind, u, v :| IsUnitName(b, name, kind, u, v);
      i := CompleteHas(g, kind, u, v);
      assert b[i] != 0 ==> Given(b, kind, u, v);
    }
  }

  lemma PicksCover(m: Matrix, at: map<int, nat>, b: seq<int>, g: seq<int>, xs: seq<nat>)
    requires Encodes(m, at, b) && Complete(g) && Extends(g, b)
    requires PicksBelow(m, b, g, CELLS, xs)
    ensures IsExactCover(m, m.cols, xs)
  {
    forall j | 0 <= j < |xs| ensures xs[j] in m.others && RowCols(m, xs[j]) <= m.cols {
      assert Picked(m, b, g, CELLS, xs[j]);
      RowColsTyped(m, xs[j]);
    }
    forall i, j | 0 <= i < j < |xs| ensures RowCols(m, xs[i]) !! RowCols(m, xs[j]) {
      PicksDisjoint(m, at, b, g, xs[i], xs[j]);
    }
    forall c | c in m.cols ensures Hits(m, xs, c) {
      var name :| name in at && at[name] == c;
      var i := SolutionHits(b, g, name);
      assert PickOf(m, xs, i);
      var j :| 0 <= j < |xs| && xs[j] in m.others && Entry(m, xs[j]).0 == i;
      assert Picked(m, b, g, CELLS, xs[j]) && RowStands(m, at, b, xs[j]);
    }
  }

  lemma RowColsTyped(m: Matrix, n: nat)
    requires ValidMatrix(m) && n in m.others
    ensures RowCols(m, n) <= m.cols
  {
  }

  lemma PicksDisjoint(m: Matrix, at: map<int, nat>, b: seq<int>, g: seq<int>, n: nat, n': nat)
    requires Encodes(m, at, b) && Complete(g) && Extends(g, b)
    requires Picked(m, b, g, CELLS, n) && Picked(m, b, g, CELLS, n') && Entry(m, n).0 != Entry(m, n').0
    ensures RowCols(m, n) !! RowCols(m, n')
  {
    assert RowStands(m, at, b, n) && RowStands(m, at, b, n');
    forall c | c in RowCols(m, n) && c in RowCols(m, n') ensures false {
      RowColsTyped(m, n);
      assert c in m.cols;
      var name :| name in at && at[name] == c;
      EntriesDisjoint(g, Entry(m, n).0, Entry(m, n').0, name);
    }
  }

  // The entries of a completed board are an exact cover.
  lemma SolutionCovers(m: Matrix, at: map<int, nat>, b: seq<int>, g: seq<int>)
    requires Encodes(m, at, b) && Complete(g) && Extends(g, b)
    ensures Coverable(m, m.cols)
  {
    forall i | 0 <= i < CELLS && b[i] == 0 ensures HasRow(m, i, g[i]) {
      SolutionCandidate(b, g, i);
    }
    var xs := Picks(m, b, g, CELLS);
    PicksCover(m, at, b, g, xs);
  }

  // The exact-cover problem has a solution exactly when the board has.
  lemma EncodingCorrect(m: Matrix, at: map<int, nat>, b: seq<int>)
    requires Encodes(m, at, b)
    ensures Coverable(m, m.cols) <==> Solvable(b)
  {
    EncodingReadable(m, at, b);
    if Coverable(m, m.cols) {
      var xs :| IsExactCover(m, m.cols, xs);
      CoverCompletes(m, at, b, xs);
    }
    if Solvable(b) {
      var g :| Complete(g) && Extends(g, b);
      SolutionCovers(m, at, b, g);
    }
  }

  // A board that repeats a given in a unit has no exact cover, although nothing checks the givens.
  lemma DuplicateNoCover(m: Matrix, at: map<int, nat>, b: seq<int>, kind: int, i: nat, j: nat)
    requires Encodes(m, at, b) && 0 <= kind < 3 && i < CELLS && j < CELLS && i != j
    requires UnitOf(kind, i) == UnitOf(kind, j) && b[i] == b[j] != 0
    ensures !Coverable(m, m.cols)
  {
    EncodingCorrect(m, at, b);
    DuplicateUnsolvable(b, kind, i, j);
  }
}
