/**
 Sudoku boards and what a completed board is.

 Kind 0 units are rows, kind 1 units are columns, kind 2 units are boxes.
 */
module SudokuRules {
  import opened Sequences

  const CELLS := 81

  ghost predicate IsBoard(b: seq<int>) {
    |b| == CELLS && forall i :: 0 <= i < CELLS ==> 0 <= b[i] <= 9
  }

  // The row, column or box of a cell, as the solver computes them.
  function UnitOf(kind: int, i: nat): (u: nat)
    requires 0 <= kind < 3 && i < CELLS
    ensures u < 9
  {
    if kind == 0 then i / 9 else if kind == 1 then i % 9 else i / 9 / 3 * 3 + i % 9 / 3
  }

  // The k-th cell of a unit.
  function CellAt(kind: int, u: nat, k: nat): (i: nat)
    requires 0 <= kind < 3 && u < 9 && k < 9
    ensures i < CELLS
  {
    if kind == 0 then 9 * u + k
    else if kind == 1 then 9 * k + u
    else 9 * (u / 3 * 3 + k / 3) + (u % 3 * 3 + k % 3)
  }

  function PlaceOf(kind: int, i: nat): (k: nat)
    requires 0 <= kind < 3 && i < CELLS
    ensures k < 9
  {
    if kind == 0 then i % 9 else if kind == 1 then i / 9 else i / 9 % 3 * 3 + i % 9 % 3
  }

  lemma Split9(q: nat, r: nat)
    requires r < 9
    ensures (9 * q + r) / 9 == q && (9 * q + r) % 9 == r
  {
  }

  lemma Split3(q: nat, r: nat)
    requires r < 3
    ensures (q * 3 + r) / 3 == q && (q * 3 + r) % 3 == r
  {
  }

  // A unit and a place in it name exactly one cell.
  lemma CellAtUnit(kind: int, u: nat, k: nat)
    requires 0 <= kind < 3 && u < 9 && k < 9
    ensures UnitOf(kind, CellAt(kind, u, k)) == u && PlaceOf(kind, CellAt(kind, u, k)) == k
  {
    if kind == 2 {
      var a, b, x, y := u / 3, u % 3, k / 3, k % 3;
      Split9(a * 3 + x, b * 3 + y);
      Split3(a, x);
      Split3(b, y);
    } else if kind == 0 {
      Split9(u, k);
    } else {
      Split9(k, u);
    }
  }

  lemma UnitCellAt(kind: int, i: nat)
    requires 0 <= kind < 3 && i < CELLS
    ensures CellAt(kind, UnitOf(kind, i), PlaceOf(kind, i)) == i
  {
    if kind == 2 {
      var r, c := i / 9, i % 9;
      var a, x, b, y := r / 3, r % 3, c / 3, c % 3;
      Split3(a, b);
      Split3(x, y);
    }
  }

  function UnitValues(g: seq<int>, kind: int, u: nat): (s: seq<int>)
    requires |g| == CELLS && 0 <= kind < 3 && u < 9
    ensures |s| == 9
  {
    seq(9, k requires 0 <= k < 9 => g[CellAt(kind, u, k)])
  }

  ghost predicate AllDifferent(s: seq<int>) {
    forall i, j :: 0 <= i < j < |s| ==> s[i] != s[j]
  }

  ghost predicate InRange(s: seq<int>, n: nat) {
    forall i :: 0 <= i < |s| ==> 1 <= s[i] <= n
  }

  ghost predicate HasAll(s: seq<int>, n: nat) {
    forall v :: 1 <= v <= n ==> v in s
  }

  // A permutation of 1..9.
  ghost predicate IsPermutation(s: seq<int>) {
    |s| == 9 && InRange(s, 9) && AllDifferent(s) && HasAll(s, 9)
  }

  // Every row, column and box is a permutation of 1..9.
  ghost predicate Complete(g: seq<int>) {
    |g| == CELLS && forall kind, u :: 0 <= kind < 3 && 0 <= u < 9 ==> IsPermutation(UnitValues(g, kind, u))
  }

  ghost predicate Extends(g: seq<int>, b: seq<int>) {
    |g| == |b| == CELLS && forall i :: 0 <= i < CELLS && b[i] != 0 ==> g[i] == b[i]
  }

  ghost predicate Solvable(b: seq<int>) {
    exists g :: Complete(g) && Extends(g, b)
  }

  // ---------- Pigeonhole ----------

  // n places and n values: if every value is there, none is there twice.
  lemma {:induction false} HasAllIsDifferent(s: seq<int>, n: nat)
    requires |s| == n && HasAll(s, n)
    ensures AllDifferent(s)
  {
    if n > 0 {
      assert n in s;
      var k :| 0 <= k < n && s[k] == n;
      var t := RemoveAt(s, k);
      forall v | 1 <= v <= n - 1 ensures v in t {
        assert v in s;
        var i :| 0 <= i < n && s[i] == v;
        assert t[if i < k then i else i - 1] == v;
      }
      HasAllIsDifferent(t, n - 1);
      HasAllRange(t, n - 1);
      forall i, j | 0 <= i < j < n ensures s[i] != s[j] {
        var i', j' := if i < k then i else i - 1, if j < k then j else j - 1;
        assert i != k ==> t[i'] == s[i];
        assert j != k ==> t[j'] == s[j];
      }
    }
  }

  lemma {:induction false} HasAllRange(s: seq<int>, n: nat)
    requires |s| == n && HasAll(s, n)
    ensures InRange(s, n)
  {
    if n > 0 {
      assert n in s;
      var k :| 0 <= k < n && s[k] == n;
      var t := RemoveAt(s, k);
      forall v | 1 <= v <= n - 1 ensures v in t {
        assert v in s;
        var i :| 0 <= i < n && s[i] == v;
        assert t[if i < k then i else i - 1] == v;
      }
      HasAllRange(t, n - 1);
      forall i | 0 <= i < n ensures 1 <= s[i] <= n {
        assert i != k ==> t[if i < k then i else i - 1] == s[i];
      }
    }
  }

  // Nine places that show every value 1..9 are a permutation.
  lemma NineOfNine(s: seq<int>)
    requires |s| == 9 && HasAll(s, 9)
    ensures IsPermutation(s)
  {
    HasAllIsDifferent(s, 9);
    HasAllRange(s, 9);
  }

  // A completed board shows a value once per unit.
  lemma CompleteUnit(g: seq<int>, kind: int, i: nat, j: nat)
    requires Complete(g) && 0 <= kind < 3 && i < CELLS && j < CELLS && i != j
    requires UnitOf(kind, i) == UnitOf(kind, j)
    ensures g[i] != g[j]
  {
    var s := UnitValues(g, kind, UnitOf(kind, i));
    UnitCellAt(kind, i);
    UnitCellAt(kind, j);
    var a, b := PlaceOf(kind, i), PlaceOf(kind, j);
    assert s[a] == g[i] && s[b] == g[j] && a != b;
    assert IsPermutation(s);
  }

  // and every value somewhere in each unit.
  lemma CompleteHas(g: seq<int>, kind: int, u: nat, v: int) returns (i: nat)
    requires Complete(g) && 0 <= kind < 3 && u < 9 && 1 <= v <= 9
    ensures i < CELLS && UnitOf(kind, i) == u && g[i] == v
  {
    var s := UnitValues(g, kind, u);
    assert IsPermutation(s);
    assert v in s;
    var k :| 0 <= k < 9 && s[k] == v;
    i := CellAt(kind, u, k);
    CellAtUnit(kind, u, k);
  }

  // A board on which every unit shows every value is complete.
  lemma UnitsHaveAll(g: seq<int>)
    requires |g| == CELLS
    requires forall kind, u, v :: 0 <= kind < 3 && 0 <= u < 9 && 1 <= v <= 9 ==> v in UnitValues(g, kind, u)
    ensures Complete(g)
  {
    forall kind, u | 0 <= kind < 3 && 0 <= u < 9 ensures IsPermutation(UnitValues(g, kind, u)) {
      NineOfNine(UnitValues(g, kind, u));
    }
  }

  // A board that repeats a given in some unit has no completion.
  lemma DuplicateUnsolvable(b: seq<int>, kind: int, i: nat, j: nat)
    requires IsBoard(b) && 0 <= kind < 3 && i < CELLS && j < CELLS && i != j
    requires UnitOf(kind, i) == UnitOf(kind, j) && b[i] == b[j] != 0
    ensures !Solvable(b)
  {
    if Solvable(b) {
      var g :| Complete(g) && Extends(g, b);
      CompleteUnit(g, kind, i, j);
      assert false;
    }
  }
}
