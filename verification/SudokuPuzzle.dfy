/**
 The constructor of the solver, which builds the pool of a board, and `solveSudoku`.
 */
module SudokuPuzzle {
  import opened DancingLinks
  import opened ExactCover
  import opened PoolBuilding
  import opened SudokuSearch
  import opened SudokuEncoding
  import opened SudokuRules

  const MAX_NODES := 1 + 81 * 4 + 9 * 9 * 9 * 4
  const NONE := -1

  // ---------- The matrix row of one candidate ----------

  // The four column names of "cell i holds v", in the order the constructor adds them.
  function EntryNames(i: nat, v: int): (names: seq<int>)
    requires i < CELLS
    ensures |names| == 4
  {
    [i, UnitName(0, UnitOf(0, i), v), UnitName(1, UnitOf(1, i), v), UnitName(2, UnitOf(2, i), v)]
  }

  ghost predicate Named(at: map<int, nat>, names: seq<int>) {
    forall k :: 0 <= k < |names| ==> names[k] in at
  }

  // The matrix after adding nodes x.. with the given names, one by one, each alone in its row.
  ghost function LoneNodes(m: Matrix, at: map<int, nat>, x: nat, names: seq<int>): Matrix
    requires Named(at, names)
  {
    if names == [] then m else
    var k := |names| - 1;
    NodeMatrix(LoneNodes(m, at, x, names[..k]), at[names[k]], x + k, names[k])
  }

  lemma {:induction false} LoneNodesAt(m: Matrix, at: map<int, nat>, x: nat, names: seq<int>)
    requires Named(at, names)
    ensures
      var m' := LoneNodes(m, at, x, names);
      && m'.cols == m.cols
      && (forall n: nat :: x <= n < x + |names| ==>
        && n in m'.others && m'.others[n] == []
        && n in m'.col && m'.col[n] == at[names[n - x]]
        && n in m'.name && m'.name[n] == names[n - x])
      && (forall n: nat :: !(x <= n < x + |names|) ==>
        && (n in m'.others <==> n in m.others) && (n in m.others ==> m'.others[n] == m.others[n])
        && (n in m'.col <==> n in m.col) && (n in m.col ==> m'.col[n] == m.col[n])
        && (n in m'.name <==> n in m.name) && (n in m.name ==> m'.name[n] == m.name[n]))
  {
    if names != [] {
      LoneNodesAt(m, at, x, names[..|names| - 1]);
    }
  }

  function Four(x: nat): (r: seq<nat>)
    ensures |r| == 4
  {
    [x, x + 1, x + 2, x + 3]
  }

  // The matrix with the row for "cell i holds v" on nodes x .. x + 3.
  ghost function WithEntry(m: Matrix, at: map<int, nat>, x: nat, i: nat, v: int): Matrix
    requires i < CELLS && Named(at, EntryNames(i, v))
  {
    JoinMatrix(LoneNodes(m, at, x, EntryNames(i, v)), Four(x))
  }

  // Wherever one starts in the row, the same cell and value are read.
  lemma ReadEntry(i: nat, v: int, n1: int, n2: int, n3: int)
    requires i < CELLS && 1 <= v <= 9
    requires n1 >= 100 && n2 >= 100 && n3 >= 100 && n1 % 10 == v && n2 % 10 == v && n3 % 10 == v
    ensures ReadRow([i, n1, n2, n3], -1, -1) == (i, v)
    ensures ReadRow([n1, n2, n3, i], -1, -1) == (i, v)
    ensures ReadRow([n2, n3, i, n1], -1, -1) == (i, v)
    ensures ReadRow([n3, i, n1, n2], -1, -1) == (i, v)
  {
    assert ReadRow([n1, n2], i, -1) == (i, v);
    assert ReadRow([i], -1, v) == (i, v);
    assert ReadRow([i, n1, n2], -1, v) == (i, v);
    assert ReadRow([n3, i], -1, v) == ReadRow([i], -1, v) by {
      assert [n3, i][1..] == [i];
    }
    assert ReadRow([n3, i, n1], -1, v) == ReadRow([i, n1], -1, v) by {
      assert [n3, i, n1][1..] == [i, n1];
    }
    assert ReadRow([n2, n3, i], -1, v) == ReadRow([n3, i], -1, v) by {
      assert [n2, n3, i][1..] == [n3, i];
    }
    assert [i, n1, n2, n3][1..] == [n1, n2, n3];
    assert ReadRow([n1, n2, n3], i, -1) == (i, v);
    assert [n1, n2, n3, i][1..] == [n2, n3, i];
    assert [n2, n3, i, n1][1..] == [n3, i, n1];
    assert ReadRow([i, n1], -1, v) == (i, v);
    assert [n3, i, n1, n2][1..] == [i, n1, n2];
  }

  // ---------- What adding an entry does to the rows ----------

  ghost predicate EntryFits(m: Matrix, at: map<int, nat>, x: nat, i: nat, v: int) {
    && ValidMatrix(m) && i < CELLS && 1 <= v <= 9
    && Named(at, EntryNames(i, v))
    && forall n :: n in m.others ==> n < x
  }

  // The two matrices agree on all rows of the first.
  ghost predicate RowsKept(m: Matrix, m': Matrix) {
    forall n :: n in m.others ==>
      && n in m'.others && m'.others[n] == m.others[n]
      && (n in m.col ==> n in m'.col && m'.col[n] == m.col[n])
      && (n in m.name ==> n in m'.name && m'.name[n] == m.name[n])
  }

  lemma WithEntryKeeps(m: Matrix, at: map<int, nat>, x: nat, i: nat, v: int)
    requires EntryFits(m, at, x, i, v)
    ensures RowsKept(m, WithEntry(m, at, x, i, v))
    ensures forall n :: n in WithEntry(m, at, x, i, v).others <==> n in m.others || x <= n < x + 4
    ensures WithEntry(m, at, x, i, v).cols == m.cols
  {
    hide ValidMatrix, LoneNodes, EntryNames;
    LoneNodesAt(m, at, x, EntryNames(i, v));
  }

  lemma RowKeptNames(m: Matrix, m': Matrix, n: nat)
    requires ValidMatrix(m) && ValidMatrix(m') && RowsKept(m, m') && n in m.others
    ensures RowNames(m', n) == RowNames(m, n)
  {
    forall k | 0 <= k <= |m.others[n]| ensures RowNames(m', n)[k] == RowNames(m, n)[k] {
      RowNodeAt(m, n, k);
    }
  }

  lemma RowNodesIn(m: Matrix, n: nat)
    requires ValidMatrix(m) && n in m.others
    ensures forall y :: y in RowNodes(m, n) ==> y in m.others && y in m.col
  {
    hide DistinctCols;
  }

  lemma RowKeptCols(m: Matrix, m': Matrix, n: nat)
    requires ValidMatrix(m) && ValidMatrix(m') && RowsKept(m, m') && n in m.others
    ensures RowCols(m', n) == RowCols(m, n)
  {
    hide ValidMatrix;
    assert RowNodes(m', n) == RowNodes(m, n);
    RowNodesIn(m, n);
  }

  lemma RowKept(m: Matrix, m': Matrix, n: nat)
    requires ValidMatrix(m) && ValidMatrix(m') && RowsKept(m, m') && n in m.others
    ensures n in m'.others && Entry(m', n) == Entry(m, n) && RowCols(m', n) == RowCols(m, n)
  {
    RowKeptNames(m, m', n);
    RowKeptCols(m, m', n);
  }

  lemma StandsKept(m: Matrix, m': Matrix, at: map<int, nat>, b: seq<int>, n: nat)
    requires ValidMatrix(m) && ValidMatrix(m') && RowsKept(m, m') && RowStands(m, at, b, n)
    ensures RowStands(m', at, b, n)
  {
    RowKept(m, m', n);
  }

  lemma HasRowKept(m: Matrix, m': Matrix, i: int, v: int)
    requires ValidMatrix(m) && ValidMatrix(m') && RowsKept(m, m') && HasRow(m, i, v)
    ensures HasRow(m', i, v)
  {
    var n :| n in m.others && Entry(m, n) == (i, v);
    RowKept(m, m', n);
  }

  // Nodes x .. x + 3 are one row, with these names in these columns.
  ghost predicate FourRow(m: Matrix, x: nat, names: seq<int>, cols: seq<nat>) {
    && |names| == 4 && |cols| == 4
    && (forall k: nat :: x <= k < x + 4 ==> k in m.others && k in m.name && k in m.col)
    && m.others[x] == [x + 1, x + 2, x + 3] && m.others[x + 1] == [x + 2, x + 3, x]
    && m.others[x + 2] == [x + 3, x, x + 1] && m.others[x + 3] == [x, x + 1, x + 2]
    && m.name[x] == names[0] && m.name[x + 1] == names[1] && m.name[x + 2] == names[2] && m.name[x + 3] == names[3]
    && m.col[x] == cols[0] && m.col[x + 1] == cols[1] && m.col[x + 2] == cols[2] && m.col[x + 3] == cols[3]
  }

  ghost function Headers(at: map<int, nat>, names: seq<int>): seq<nat>
    requires |names| == 4 && Named(at, names)
  {
    [at[names[0]], at[names[1]], at[names[2]], at[names[3]]]
  }

  lemma WithEntryRow(m: Matrix, at: map<int, nat>, x: nat, i: nat, v: int)
    requires EntryFits(m, at, x, i, v)
    ensures FourRow(WithEntry(m, at, x, i, v), x, EntryNames(i, v), Headers(at, EntryNames(i, v)))
  {
    hide ValidMatrix;
    LoneNodesAt(m, at, x, EntryNames(i, v));
  }

  lemma NamesOf(m: Matrix, n: nat, a: nat, b: nat, c: nat)
    requires ValidMatrix(m) && n in m.others && m.others[n] == [a, b, c]
    requires n in m.name && a in m.name && b in m.name && c in m.name
    ensures RowNames(m, n) == [m.name[n], m.name[a], m.name[b], m.name[c]]
  {
    hide ValidMatrix;
    assert [n] + m.others[n] == [n, a, b, c];
  }

  lemma NewRowNames(m: Matrix, x: nat, cols: seq<nat>, i: nat, v: int, n: nat)
    requires ValidMatrix(m) && i < CELLS && 1 <= v <= 9 && FourRow(m, x, EntryNames(i, v), cols) && x <= n < x + 4
    ensures n in m.others && Entry(m, n) == (i, v)
  {
    hide ValidMatrix, RowNames, ReadRow, EntryNames;
    var a, b, c := x + 1, x + 2, x + 3;
    ReadNames(i, v);
    if n == x {
      NamesOf(m, x, a, b, c);
    } else if n == a {
      NamesOf(m, a, b, c, x);
    } else if n == b {
      NamesOf(m, b, c, x, a);
    } else {
      NamesOf(m, c, x, a, b);
    }
  }

  // The names of an entry read the same from whichever of them one starts.
  lemma ReadNames(i: nat, v: int)
    requires i < CELLS && 1 <= v <= 9
    ensures
      var ns := EntryNames(i, v);
      && ReadRow([ns[0], ns[1], ns[2], ns[3]], -1, -1) == (i, v)
      && ReadRow([ns[1], ns[2], ns[3], ns[0]], -1, -1) == (i, v)
      && ReadRow([ns[2], ns[3], ns[0], ns[1]], -1, -1) == (i, v)
      && ReadRow([ns[3], ns[0], ns[1], ns[2]], -1, -1) == (i, v)
  {
    hide ReadRow;
    var ns := EntryNames(i, v);
    ReadEntry(i, v, ns[1], ns[2], ns[3]);
  }

  lemma NewRowCols(m: Matrix, x: nat, names: seq<int>, cols: seq<nat>, n: nat)
    requires ValidMatrix(m) && FourRow(m, x, names, cols) && x <= n < x + 4
    ensures n in m.others && RowCols(m, n) == {cols[0], cols[1], cols[2], cols[3]}
  {
    hide ValidMatrix;
    assert RowNodes(m, n) == {x, x + 1, x + 2, x + 3};
  }

  lemma NewRowStands(m: Matrix, at: map<int, nat>, b: seq<int>, x: nat, i: nat, v: int, n: nat)
    requires ValidMatrix(m) && i < CELLS && 1 <= v <= 9 && x <= n < x + 4
    requires Named(at, EntryNames(i, v))
    requires FourRow(m, x, EntryNames(i, v), Headers(at, EntryNames(i, v)))
    requires Candidate(b, i, v) && forall y, z :: y in at && z in at && y != z ==> at[y] != at[z]
    ensures RowStands(m, at, b, n)
  {
    hide ValidMatrix, RowCols, Entry, EntryNames, InEntry, FourRow, Candidate;
    var names := EntryNames(i, v);
    NewRowNames(m, x, Headers(at, names), i, v, n);
    NewRowCols(m, x, names, Headers(at, names), n);
    forall name | name in at ensures at[name] in RowCols(m, n) <==> InEntry(i, v, name) {
      EntryNamesIn(i, v, name);
    }
  }

  lemma EntryNamesIn(i: nat, v: int, name: int)
    requires i < CELLS
    ensures InEntry(i, v, name) <==> name in EntryNames(i, v)
    ensures
      var ns := EntryNames(i, v);
      name in ns <==> name == ns[0] || name == ns[1] || name == ns[2] || name == ns[3]
  {
    var ns := EntryNames(i, v);
    if InEntry(i, v, name) && name != i {
      var kind :| 0 <= kind < 3 && name == UnitName(kind, UnitOf(kind, i), v);
      assert name == ns[kind + 1];
    }
  }

  // ---------- Building the pool ----------

  class PoolBuilder {
    const nodes: array<Node>
    const columns: array<int>
    var curNode: nat
    ghost var matrix: Matrix
    ghost var view: View
    ghost var headerOf: map<int, nat>

    ghost predicate Valid()
      reads this, nodes, columns
    {
      && columns.Length == 400 && nodes.Length == MAX_NODES && curNode <= MAX_NODES
      && Full(matrix, nodes[..], view) && UsedBelow(matrix, view, curNode) && view.root == 0
      && NamesHeaders(matrix, headerOf)
      && ColumnTable(columns[..], headerOf)
    }

    // Only the root: no columns, no rows.
    constructor ()
      ensures Valid() && fresh(nodes) && fresh(columns)
      ensures curNode == 1 && headerOf == map[] && matrix.others == map[]
    {
      nodes := new Node[MAX_NODES](_ => Node(0, 0, 0, 0, 0, 0, 0));
      columns := new int[400](_ => NONE);
      curNode := 1;
      matrix := Matrix({}, map[], map[], map[]);
      view := View(0, [], map[]);
      headerOf := map[];
      new;
      forall i | 0 <= i < MAX_NODES ensures InPool(nodes[..], i) {
      }
    }

    method PutLeftOf(h: nat, x: nat)
      requires InPool(nodes[..], h) && x < nodes.Length && h != x && nodes[h].left != x
      modifies nodes
      ensures nodes[..] == PutLeft(old(nodes[..]), h, x)
    {
      nodes[x] := nodes[x].(left := nodes[h].left);
      nodes[x] := nodes[x].(right := h);
      nodes[nodes[h].left] := nodes[nodes[h].left].(right := x);
      nodes[h] := nodes[h].(left := x);
    }

    method PutUpOf(h: nat, x: nat)
      requires InPool(nodes[..], h) && x < nodes.Length && h != x && nodes[h].up != x
      modifies nodes
      ensures nodes[..] == PutUp(old(nodes[..]), h, x)
    {
      nodes[x] := nodes[x].(up := nodes[h].up);
      nodes[x] := nodes[x].(down := h);
      nodes[nodes[h].up] := nodes[nodes[h].up].(down := x);
      nodes[h] := nodes[h].(up := x);
      nodes[h] := nodes[h].(size := nodes[h].size + 1);
      nodes[x] := nodes[x].(col := h);
    }

    method AppendColumn(name: nat)
      requires Valid() && name < 400 && name !in headerOf && curNode < MAX_NODES
      modifies this, nodes, columns
      ensures Valid() && curNode == old(curNode) + 1
      ensures headerOf == old(headerOf)[name := old(curNode)]
      ensures matrix.others == old(matrix.others)
    {
      hide Full, UsedBelow, NamesHeaders;
      ghost var p, m, v := nodes[..], matrix, view;
      var c := curNode;
      curNode := curNode + 1;
      AddHeader(m, p, v, c, name);
      HeaderStart(m, p, v, c, name);
      nodes[c] := Node(c, c, c, c, c, name, 0);
      PutLeftOf(0, c);
      columns[name] := c;
      matrix, view := HeaderMatrix(m, c), HeaderView(v, c);
      NamesHeadersAdd(m, v, headerOf, c, name);
      headerOf := headerOf[name := c];
    }

    method NewRow(name: nat) returns (x: nat)
      requires Valid() && name in headerOf && curNode < MAX_NODES
      modifies this, nodes
      ensures Valid() && x == old(curNode) && curNode == old(curNode) + 1
      ensures headerOf == old(headerOf)
      ensures matrix == NodeMatrix(old(matrix), headerOf[name], x, name)
    {
      hide Full, UsedBelow, NamesHeaders;
      ghost var p, m, v := nodes[..], matrix, view;
      x := curNode;
      curNode := curNode + 1;
      var d := columns[name];
      NamedColumn(m, headerOf, name);
      AddNode(m, p, v, d, x, name);
      NodeStart(m, p, v, d, x, name);
      nodes[x] := Node(x, x, x, x, d, name, 0);
      PutUpOf(d, x);
      matrix, view := NodeMatrix(m, d, x, name), NodeView(v, d, x);
      NamesHeadersNode(m, headerOf, d, x, name);
    }

    // Adds the matrix row for "cell i holds v".
    method AddEntry(i: nat, v: nat)
      requires Valid() && i < CELLS && 1 <= v <= 9 && curNode + 4 <= MAX_NODES
      requires Named(headerOf, EntryNames(i, v))
      modifies this, nodes
      ensures Valid() && curNode == old(curNode) + 4 && headerOf == old(headerOf)
      ensures matrix == WithEntry(old(matrix), headerOf, old(curNode), i, v)
    {
      hide Full, UsedBelow, NamesHeaders, ColumnTable, NodeMatrix, JoinPool, JoinMatrix, Attach, PutLeft, InPool,
           UnitOf, UnitName, FourLone;
      var names := EntryNames(i, v);
      UnitNamePositive(i, v);
      assert names[0] in headerOf && names[1] in headerOf && names[2] in headerOf && names[3] in headerOf;
      ghost var m := matrix;
      var n0 := NewRow(i);
      var nr := NewRow(UnitName(0, UnitOf(0, i), v));
      var nc := NewRow(UnitName(1, UnitOf(1, i), v));
      var nb := NewRow(UnitName(2, UnitOf(2, i), v));
      LoneFour(m, headerOf, n0, names);
      FourAreLone(m, matrix, headerOf, n0, i, v);
      ghost var p := nodes[..];
      JoinStart(matrix, p, view, Four(n0));
      JoinSteps(p, Four(n0));
      AddRow(matrix, p, view, Four(n0), curNode);
      PutLeftOf(n0, nr);
      PutLeftOf(n0, nc);
      PutLeftOf(n0, nb);
      NamesHeadersJoin(matrix, headerOf, Four(n0));
      matrix := JoinMatrix(matrix, Four(n0));
    }

    // ---------- The three passes of the constructor ----------

    // One column per empty cell.
    method BuildCells(board: array<int>)
      requires Valid() && curNode == 1 && headerOf == map[] && board != columns && IsBoard(board[..])
      modifies this, nodes, columns
      ensures Valid() && curNode <= 82 && matrix.others == old(matrix.others)
      ensures forall name :: name in headerOf <==> NamedUpTo(board[..], name, 0, 1, 0)
    {
      hide Full, UsedBelow, NamesHeaders, ColumnTable;
      ghost var b := board[..];
      for i := 0 to CELLS
        invariant Valid() && curNode <= 1 + i && matrix.others == old(matrix.others) && board[..] == b
        invariant forall name :: name in headerOf <==> 0 <= name < i && b[name] == 0
      {
        if board[i] == 0 {
          AppendColumn(i);
        }
      }
      forall name ensures name in headerOf <==> NamedUpTo(b, name, 0, 1, 0) {
      }
    }

    // One step of the second pass: a column for a value missing from a unit.
    method AppendUnit(kind: nat, u: nat, v: nat, given: bool, ghost b: seq<int>)
      requires Valid() && kind < 3 && u < 9 && 1 <= v <= 9 && IsBoard(b) && given == Given(b, kind, u, v)
      requires (forall name :: name in headerOf <==> NamedUpTo(b, name, u, v, kind)) && curNode < MAX_NODES
      modifies this, nodes, columns
      ensures Valid() && old(curNode) <= curNode <= old(curNode) + 1 && matrix.others == old(matrix.others)
      ensures forall name :: name in headerOf <==> NamedUpTo(b, name, u, v, kind + 1)
    {
      hide Full, UsedBelow, NamesHeaders, ColumnTable, NamedUpTo, Given;
      forall name
        ensures NamedUpTo(b, name, u, v, kind + 1) <==>
          NamedUpTo(b, name, u, v, kind) || (name == UnitName(kind, u, v) && !Given(b, kind, u, v))
      {
        NamedStep(b, name, u, v, kind);
      }
      NamedFresh(b, u, v, kind);
      if !given {
        AppendColumn(UnitName(kind, u, v));
      }
    }

    method BuildUnits(rows: array2<bool>, cols: array2<bool>, boxes: array2<bool>, ghost b: seq<int>)
      requires Valid() && curNode <= 82 && IsBoard(b)
      requires Marks(rows, b, 0, CELLS) && Marks(cols, b, 1, CELLS) && Marks(boxes, b, 2, CELLS)
      requires forall name :: name in headerOf <==> NamedUpTo(b, name, 0, 1, 0)
      modifies this, nodes, columns
      ensures Valid() && curNode <= 325 && matrix.others == old(matrix.others)
      ensures forall name :: name in headerOf <==> IsName(b, name)
    {
      hide Full, UsedBelow, NamesHeaders, ColumnTable, NamedUpTo, IsName;
      for u := 0 to 9
        invariant Valid() && curNode <= 82 + 27 * u && matrix.others == old(matrix.others)
        invariant forall name :: name in headerOf <==> NamedUpTo(b, name, u, 1, 0)
      {
        for v := 1 to 10
          invariant Valid() && curNode <= 82 + 27 * u + 3 * (v - 1) && matrix.others == old(matrix.others)
          invariant forall name :: name in headerOf <==> NamedUpTo(b, name, u, v, 0)
        {
          MarkedGiven(rows, b, 0, u, v);
          MarkedGiven(cols, b, 1, u, v);
          MarkedGiven(boxes, b, 2, u, v);
          AppendUnit(0, u, v, rows[u, v], b);
          AppendUnit(1, u, v, cols[u, v], b);
          AppendUnit(2, u, v, boxes[u, v], b);
          forall name ensures NamedUpTo(b, name, u, v, 3) <==> NamedUpTo(b, name, u, v + 1, 0) {
            NamedCarry(b, name, u, v);
          }
        }
        forall name ensures NamedUpTo(b, name, u, 10, 0) <==> NamedUpTo(b, name, u + 1, 1, 0) {
          NamedCarry(b, name, u, 9);
        }
      }
      forall name ensures NamedUpTo(b, name, 9, 1, 0) <==> IsName(b, name) {
        NamedAll(b, name);
      }
    }

    // One matrix row per candidate.
    method BuildRows(board: array<int>, rows: array2<bool>, cols: array2<bool>, boxes: array2<bool>)
      requires Valid() && curNode <= 325 && board != columns && IsBoard(board[..]) && matrix.others == map[]
      requires Marks(rows, board[..], 0, CELLS) && Marks(cols, board[..], 1, CELLS) && Marks(boxes, board[..], 2, CELLS)
      requires forall name :: name in headerOf <==> IsName(board[..], name)
      modifies this, nodes
      ensures Valid() && Encodes(matrix, headerOf, board[..])
    {
      hide Full, UsedBelow, NamesHeaders, ColumnTable, IsName, RowsUpTo, Candidate;
      ghost var b, at := board[..], headerOf;
      RowsNone(matrix, nodes[..], view, at, b);
      for i := 0 to CELLS
        invariant Valid() && headerOf == at && board[..] == b && curNode <= 325 + 36 * i
        invariant RowsUpTo(matrix, at, b, i, 1)
      {
        if board[i] == 0 {
          var row, col := i / 9, i % 9;
          var box := row / 3 * 3 + col / 3;
          for v := 1 to 10
            invariant Valid() && headerOf == at && board[..] == b && curNode <= 325 + 36 * i + 4 * (v - 1)
            invariant RowsUpTo(matrix, at, b, i, v)
          {
            MarkedGiven(rows, b, 0, row, v);
            MarkedGiven(cols, b, 1, col, v);
            MarkedGiven(boxes, b, 2, box, v);
            CandidateIs(b, i, v);
            if !(rows[row, v] || cols[col, v] || boxes[box, v]) {
              CandidateNamed(b, at, i, v);
              ghost var m, x := matrix, curNode;
              ghost var p, w := nodes[..], view;
              AddEntry(i, v);
              RowsAdd(m, p, w, matrix, nodes[..], view, at, b, x, i, v);
            } else {
              RowsSkip(matrix, at, b, i, v);
            }
          }
          RowsCarry(matrix, at, b, i);
        } else {
          RowsGiven(matrix, at, b, i);
        }
      }
      RowsAll(matrix, at, b);
    }
  }

  // columns_: the header of each name, or NULL.
  ghost predicate ColumnTable(table: seq<int>, at: map<int, nat>) {
    && |table| == 400
    && (forall name :: name in at ==> 0 <= name < 400)
    && forall name :: 0 <= name < 400 ==> table[name] == if name in at then at[name] else NONE
  }

  lemma HeaderStart(m: Matrix, p: Pool, v: View, c: nat, name: int)
    requires Full(m, p, v) && UsedBelow(m, v, c) && c < |p| && v.root == 0
    ensures
      var q := Alone(p, c, c, name);
      && InPool(q, 0) && 0 != c && q[0].left != c && PutLeft(q, 0, c) == HeaderPool(p, 0, c, name)
  {
    RootLeft(m, p, v);
  }

  lemma NodeStart(m: Matrix, p: Pool, v: View, d: nat, x: nat, name: int)
    requires Full(m, p, v) && UsedBelow(m, v, x) && x < |p| && d in m.cols
    ensures d < |p| && d != x
    ensures
      var q := Alone(p, x, d, name);
      && InPool(q, d) && q[d].up != x && PutUp(q, d, x) == NodePool(p, d, x, name)
  {
    HeaderUp(m, p, v, d);
  }

  lemma NamesHeadersAdd(m: Matrix, v: View, at: map<int, nat>, c: nat, name: int)
    requires NamesHeaders(m, at) && UsedBelow(m, v, c) && name !in at
    ensures NamesHeaders(HeaderMatrix(m, c), at[name := c])
  {
    var at' := at[name := c];
    forall d | d in m.cols + {c} ensures exists n :: n in at' && at'[n] == d {
      if d == c {
        assert at'[name] == c;
      } else {
        var n :| n in at && at[n] == d;
        assert at'[n] == d;
      }
    }
  }

  lemma NamedColumn(m: Matrix, at: map<int, nat>, name: int)
    requires NamesHeaders(m, at) && name in at
    ensures at[name] in m.cols
  {
  }

  lemma NamesHeadersNode(m: Matrix, at: map<int, nat>, d: nat, x: nat, name: int)
    requires NamesHeaders(m, at)
    ensures NamesHeaders(NodeMatrix(m, d, x, name), at)
  {
  }

  lemma UnitNamePositive(i: nat, v: int)
    requires i < CELLS && 1 <= v <= 9
    ensures UnitName(0, UnitOf(0, i), v) >= 0 && UnitName(1, UnitOf(1, i), v) >= 0 && UnitName(2, UnitOf(2, i), v) >= 0
  {
  }

  lemma LoneFour(m: Matrix, at: map<int, nat>, x: nat, names: seq<int>)
    requires |names| == 4 && Named(at, names)
    ensures
      var m1 := NodeMatrix(m, at[names[0]], x, names[0]);
      var m2 := NodeMatrix(m1, at[names[1]], x + 1, names[1]);
      var m3 := NodeMatrix(m2, at[names[2]], x + 2, names[2]);
      LoneNodes(m, at, x, names) == NodeMatrix(m3, at[names[3]], x + 3, names[3])
  {
    hide NodeMatrix;
    assert names[..3][..2] == names[..2] && names[..2][..1] == names[..1] && names[..1][..0] == [];
    assert LoneNodes(m, at, x, names[..1][..0]) == m;
    assert LoneNodes(m, at, x, names[..1]) == NodeMatrix(m, at[names[0]], x, names[0]);
    assert LoneNodes(m, at, x, names[..2]) ==
           NodeMatrix(LoneNodes(m, at, x, names[..1]), at[names[1]], x + 1, names[1]);
    assert LoneNodes(m, at, x, names[..3]) ==
           NodeMatrix(LoneNodes(m, at, x, names[..2]), at[names[2]], x + 2, names[2]);
  }

  lemma FourAreLone(m: Matrix, m': Matrix, at: map<int, nat>, x: nat, i: nat, v: int)
    requires i < CELLS && 1 <= v <= 9 && Named(at, EntryNames(i, v)) && m' == LoneNodes(m, at, x, EntryNames(i, v))
    requires NamesHeaders(m', at)
    ensures FourLone(m', Four(x))
  {
    hide LoneNodes, EntryNames;
    var names := EntryNames(i, v);
    LoneNodesAt(m, at, x, names);
    NamesDiffer(i, v);
    var r := Four(x);
    forall j, k | 0 <= j < k < 4 ensures m'.col[r[j]] != m'.col[r[k]] {
      assert m'.col[r[j]] == at[names[j]] && m'.col[r[k]] == at[names[k]];
    }
  }

  lemma NamesDiffer(i: nat, v: int)
    requires i < CELLS && 1 <= v <= 9
    ensures forall j, k :: 0 <= j < k < 4 ==> EntryNames(i, v)[j] != EntryNames(i, v)[k]
  {
  }

  lemma NamesHeadersJoin(m: Matrix, at: map<int, nat>, r: seq<nat>)
    requires NamesHeaders(m, at) && |r| == 4
    ensures NamesHeaders(JoinMatrix(m, r), at)
  {
  }

  lemma JoinStart(m: Matrix, p: Pool, v: View, r: seq<nat>)
    requires Full(m, p, v) && FourLone(m, r)
    ensures Closed(p) && |r| == 4 && Distinct(r) && HRing(p, r[0], [])
    ensures r[0] < |p| && r[1] < |p| && r[2] < |p| && r[3] < |p|
  {
  }

  // The three put_left calls, one at a time.
  lemma JoinSteps(p: Pool, r: seq<nat>)
    requires Closed(p) && |r| == 4 && Distinct(r) && HRing(p, r[0], [])
    requires r[0] < |p| && r[1] < |p| && r[2] < |p| && r[3] < |p|
    ensures
      var p1 := Attach(p, r[0], r[1]);
      var p2 := Attach(p1, r[0], r[2]);
      && InPool(p, r[0]) && p[r[0]].left != r[1] && p1 == PutLeft(p, r[0], r[1])
      && InPool(p1, r[0]) && p1[r[0]].left != r[2] && p2 == PutLeft(p1, r[0], r[2])
      && InPool(p2, r[0]) && p2[r[0]].left != r[3] && JoinPool(p, r) == PutLeft(p2, r[0], r[3])
      && r[0] != r[1] && r[0] != r[2] && r[0] != r[3]
  {
    hide HRing, Attach, PutLeft, SidesOnly;
    var a, b, c, d := r[0], r[1], r[2], r[3];
    LeftOfRing(p, a, []);
    assert [a] + [] + [b] == [a, b] && [] + [b] == [b];
    assert [a] + [b] + [c] == [a, b, c] && [b] + [c] == [b, c];
    AttachStep(p, a, [], b, {a, b, c, d});
    var p1 := Attach(p, a, b);
    LeftOfRing(p1, a, [b]);
    AttachStep(p1, a, [b], c, {a, b, c, d});
    var p2 := Attach(p1, a, c);
    LeftOfRing(p2, a, [b, c]);
    assert InPool(p, a) && InPool(p1, a) && InPool(p2, a);
    AttachIs(p, a, b);
    AttachIs(p1, a, c);
    AttachIs(p2, a, d);
  }

  lemma LeftOfRing(p: Pool, h: nat, ns: seq<nat>)
    requires HRing(p, h, ns)
    ensures h < |p| && p[h].left == if ns == [] then h else ns[|ns| - 1]
  {
    assert ([h] + ns)[0] == h && (ns + [h])[|ns|] == h;
  }

  lemma AttachIs(p: Pool, h: nat, x: nat)
    requires InPool(p, h) && x < |p|
    ensures Attach(p, h, x) == PutLeft(p, h, x)
  {
  }

  // ---------- What the passes have done so far ----------

  // Before(u', v', kind') < (u, v, kind), in the order of the second pass.
  ghost predicate Earlier(u': int, v': int, kind': int, u: int, v: int, kind: int) {
    u' < u || (u' == u && (v' < v || (v' == v && kind' < kind)))
  }

  // The names given a column once the second pass has come to (u, v, kind).
  ghost predicate NamedUpTo(b: seq<int>, name: int, u: int, v: int, kind: int) {
    || (0 <= name < CELLS && name < |b| && b[name] == 0)
    || exists kind', u', v' :: IsUnitName(b, name, kind', u', v') && Earlier(u', v', kind', u, v, kind)
  }

  lemma NamedStep(b: seq<int>, name: int, u: int, v: int, kind: int)
    requires 0 <= kind < 3 && 0 <= u < 9 && 1 <= v <= 9
    ensures NamedUpTo(b, name, u, v, kind + 1) <==>
      NamedUpTo(b, name, u, v, kind) || (name == UnitName(kind, u, v) && !Given(b, kind, u, v))
  {
    hide Given;
    if name == UnitName(kind, u, v) && !Given(b, kind, u, v) {
      assert IsUnitName(b, name, kind, u, v) && Earlier(u, v, kind, u, v, kind + 1);
    }
    if NamedUpTo(b, name, u, v, kind) && !(0 <= name < CELLS && name < |b| && b[name] == 0) {
      var kind', u', v' :| IsUnitName(b, name, kind', u', v') && Earlier(u', v', kind', u, v, kind);
      assert Earlier(u', v', kind', u, v, kind + 1);
    }
    if NamedUpTo(b, name, u, v, kind + 1) && !(0 <= name < CELLS && name < |b| && b[name] == 0) {
      var kind', u', v' :| IsUnitName(b, name, kind', u', v') && Earlier(u', v', kind', u, v, kind + 1);
      assert Earlier(u', v', kind', u, v, kind) || (u' == u && v' == v && kind' == kind);
    }
  }

  lemma NamedFresh(b: seq<int>, u: int, v: int, kind: int)
    requires 0 <= kind < 3 && 0 <= u < 9 && 1 <= v <= 9
    ensures !NamedUpTo(b, UnitName(kind, u, v), u, v, kind) && 100 <= UnitName(kind, u, v) < 400
  {
    var name := UnitName(kind, u, v);
    if NamedUpTo(b, name, u, v, kind) {
      var kind', u', v' :| IsUnitName(b, name, kind', u', v') && Earlier(u', v', kind', u, v, kind);
      UnitNameUnique(kind, u, v, kind', u', v');
      assert false;
    }
  }

  lemma EarlierCarry(u': int, v': int, kind': int, u: int, v: int)
    requires 0 <= kind' < 3 && 1 <= v' <= 9
    ensures Earlier(u', v', kind', u, v, 3) <==> Earlier(u', v', kind', u, v + 1, 0)
    ensures Earlier(u', v', kind', u, 10, 0) <==> Earlier(u', v', kind', u + 1, 1, 0)
  {
  }

  lemma NamedCarry(b: seq<int>, name: int, u: int, v: int)
    ensures NamedUpTo(b, name, u, v, 3) <==> NamedUpTo(b, name, u, v + 1, 0)
    ensures NamedUpTo(b, name, u, 10, 0) <==> NamedUpTo(b, name, u + 1, 1, 0)
  {
    forall kind', u', v' | IsUnitName(b, name, kind', u', v')
      ensures Earlier(u', v', kind', u, v, 3) <==> Earlier(u', v', kind', u, v + 1, 0)
      ensures Earlier(u', v', kind', u, 10, 0) <==> Earlier(u', v', kind', u + 1, 1, 0)
    {
      EarlierCarry(u', v', kind', u, v);
    }
    hide IsUnitName, Earlier;
  }

  lemma NamedAll(b: seq<int>, name: int)
    ensures NamedUpTo(b, name, 9, 1, 0) <==> IsName(b, name)
  {
    forall kind', u', v' | IsUnitName(b, name, kind', u', v') ensures Earlier(u', v', kind', 9, 1, 0) {
    }
  }

  // ---------- The tables of givens ----------

  // Entry (u, v) says whether some cell below `n` of unit `u` is given as `v`.
  ghost predicate Marks(t: array2<bool>, b: seq<int>, kind: int, n: nat)
    reads t
  {
    && t.Length0 == CELLS && t.Length1 == 10 && 0 <= kind < 3 && n <= CELLS && |b| == CELLS
    && forall u, v :: 0 <= u < 9 && 0 <= v <= 9 ==> (t[u, v] <==> GivenBelow(b, kind, u, v, n))
  }

  ghost predicate GivenBelow(b: seq<int>, kind: int, u: int, v: int, n: nat) {
    exists i: nat :: i < n && i < CELLS && i < |b| && 0 <= kind < 3 && UnitOf(kind, i) == u && b[i] == v
  }

  lemma MarkedGiven(t: array2<bool>, b: seq<int>, kind: int, u: nat, v: nat)
    requires Marks(t, b, kind, CELLS) && u < 9 && v <= 9
    ensures t.Length0 == CELLS && t.Length1 == 10 && (t[u, v] <==> Given(b, kind, u, v))
  {
    if Given(b, kind, u, v) {
      var i: nat :| i < CELLS && UnitOf(kind, i) == u && b[i] == v;
      assert GivenBelow(b, kind, u, v, CELLS);
    }
    if GivenBelow(b, kind, u, v, CELLS) {
      var i: nat :| i < CELLS && UnitOf(kind, i) == u && b[i] == v;
      assert Given(b, kind, u, v);
    }
  }

  // ---------- The rows added so far ----------

  ghost predicate RowsUpTo(m: Matrix, at: map<int, nat>, b: seq<int>, i: int, v: int) {
    && ValidMatrix(m)
    && (forall n :: n in m.others ==> RowStands(m, at, b, n))
    && forall i', v' :: (i' < i || (i' == i && v' < v)) && Candidate(b, i', v') ==> HasRow(m, i', v')
  }

  lemma RowsNone(m: Matrix, p: Pool, v: View, at: map<int, nat>, b: seq<int>)
    requires Full(m, p, v) && m.others == map[]
    ensures RowsUpTo(m, at, b, 0, 1)
  {
  }

  lemma CandidateIs(b: seq<int>, i: nat, v: int)
    requires |b| == CELLS && i < CELLS && b[i] == 0 && 1 <= v <= 9
    ensures UnitOf(0, i) == i / 9 && UnitOf(1, i) == i % 9 && UnitOf(2, i) == i / 9 / 3 * 3 + i % 9 / 3
    ensures Candidate(b, i, v) <==>
      !Given(b, 0, UnitOf(0, i), v) && !Given(b, 1, UnitOf(1, i), v) && !Given(b, 2, UnitOf(2, i), v)
  {
    hide Given;
    assert Candidate(b, i, v) ==> forall kind :: 0 <= kind < 3 ==> !Given(b, kind, UnitOf(kind, i), v);
  }

  lemma CandidateNamed(b: seq<int>, at: map<int, nat>, i: nat, v: int)
    requires i < CELLS && Candidate(b, i, v) && forall name :: name in at <==> IsName(b, name)
    ensures Named(at, EntryNames(i, v))
  {
    var names := EntryNames(i, v);
    assert IsName(b, names[0]);
    assert IsUnitName(b, names[1], 0, UnitOf(0, i), v);
    assert IsUnitName(b, names[2], 1, UnitOf(1, i), v);
    assert IsUnitName(b, names[3], 2, UnitOf(2, i), v);
    forall k | 0 <= k < 4 ensures names[k] in at {
      assert IsName(b, names[k]);
    }
  }

  lemma RowsAdd(m: Matrix, p: Pool, w: View, m': Matrix, p': Pool, w': View, at: map<int, nat>, b: seq<int>,
                x: nat, i: nat, v: int)
    requires Full(m, p, w) && UsedBelow(m, w, x) && Full(m', p', w') && NamesHeaders(m', at)
    requires i < CELLS && Candidate(b, i, v) && Named(at, EntryNames(i, v)) && m' == WithEntry(m, at, x, i, v)
    requires RowsUpTo(m, at, b, i, v)
    ensures RowsUpTo(m', at, b, i, v + 1)
  {
    hide Full, WithEntry, RowStands, HasRow, EntryNames;
    FullValid(m, p, w);
    FullValid(m', p', w');
    assert EntryFits(m, at, x, i, v);
    WithEntryKeeps(m, at, x, i, v);
    WithEntryRow(m, at, x, i, v);
    forall n | n in m'.others ensures RowStands(m', at, b, n) {
      if n in m.others {
        StandsKept(m, m', at, b, n);
      } else {
        NewRowStands(m', at, b, x, i, v, n);
      }
    }
    NewHasRow(m', at, b, x, i, v);
    forall i', v' | (i' < i || (i' == i && v' < v + 1)) && Candidate(b, i', v') ensures HasRow(m', i', v') {
      if i' != i || v' != v {
        HasRowKept(m, m', i', v');
      }
    }
  }

  lemma NewHasRow(m: Matrix, at: map<int, nat>, b: seq<int>, x: nat, i: nat, v: int)
    requires ValidMatrix(m) && i < CELLS && 1 <= v <= 9 && Named(at, EntryNames(i, v))
    requires FourRow(m, x, EntryNames(i, v), Headers(at, EntryNames(i, v)))
    ensures HasRow(m, i, v)
  {
    hide FourRow, ValidMatrix, Entry, EntryNames;
    NewRowNames(m, x, Headers(at, EntryNames(i, v)), i, v, x);
  }

  lemma FullValid(m: Matrix, p: Pool, v: View)
    requires Full(m, p, v)
    ensures ValidMatrix(m)
  {
  }

  lemma RowsSkip(m: Matrix, at: map<int, nat>, b: seq<int>, i: int, v: int)
    requires RowsUpTo(m, at, b, i, v) && !Candidate(b, i, v)
    ensures RowsUpTo(m, at, b, i, v + 1)
  {
  }

  lemma RowsCarry(m: Matrix, at: map<int, nat>, b: seq<int>, i: int)
    requires RowsUpTo(m, at, b, i, 10)
    ensures RowsUpTo(m, at, b, i + 1, 1)
  {
    forall i', v' | (i' < i + 1 || (i' == i + 1 && v' < 1)) && Candidate(b, i', v') ensures HasRow(m, i', v') {
      assert i' < i || (i' == i && v' < 10);
    }
  }

  lemma RowsGiven(m: Matrix, at: map<int, nat>, b: seq<int>, i: nat)
    requires RowsUpTo(m, at, b, i, 1) && i < |b| && b[i] != 0
    ensures RowsUpTo(m, at, b, i + 1, 1)
  {
    forall i', v' | (i' < i + 1 || (i' == i + 1 && v' < 1)) && Candidate(b, i', v') ensures HasRow(m, i', v') {
      assert i' < i;
    }
  }

  lemma RowsAll(m: Matrix, at: map<int, nat>, b: seq<int>)
    requires IsBoard(b) && NamesHeaders(m, at) && RowsUpTo(m, at, b, CELLS, 1)
    requires forall name :: name in at <==> IsName(b, name)
    ensures Encodes(m, at, b)
  {
    hide RowStands, HasRow, NamesHeaders, IsName;
  }

  lemma GivenStep(b: seq<int>, kind: int, u: int, v: int, n: nat)
    requires 0 <= kind < 3 && n < CELLS && |b| == CELLS
    ensures GivenBelow(b, kind, u, v, n + 1) <==>
      GivenBelow(b, kind, u, v, n) || (UnitOf(kind, n) == u && b[n] == v)
  {
    hide UnitOf;
    if GivenBelow(b, kind, u, v, n) {
      var i: nat :| i < n && UnitOf(kind, i) == u && b[i] == v;
      assert GivenBelow(b, kind, u, v, n + 1);
    }
    if GivenBelow(b, kind, u, v, n + 1) {
      var i: nat :| i < n + 1 && i < CELLS && UnitOf(kind, i) == u && b[i] == v;
      assert i < n ==> GivenBelow(b, kind, u, v, n);
    }
  }

  // Sets the mark of cell `n` in its unit.
  method MarkOne(t: array2<bool>, kind: nat, u: nat, val: nat, ghost b: seq<int>, ghost n: nat)
    requires n < CELLS && Marks(t, b, kind, n) && u == UnitOf(kind, n) && val == b[n] <= 9
    modifies t
    ensures Marks(t, b, kind, n + 1)
  {
    hide UnitOf, GivenBelow;
    t[u, val] := true;
    forall x, y | 0 <= x < 9 && 0 <= y <= 9 ensures t[x, y] <==> GivenBelow(b, kind, x, y, n + 1) {
      GivenStep(b, kind, x, y, n);
    }
  }

  // The first pass of the constructor: which values each row, column and box already shows.
  method MarkGivens(board: array<int>)
    returns (rows: array2<bool>, cols: array2<bool>, boxes: array2<bool>)
    requires IsBoard(board[..])
    ensures fresh(rows) && fresh(cols) && fresh(boxes)
    ensures Marks(rows, board[..], 0, CELLS) && Marks(cols, board[..], 1, CELLS) && Marks(boxes, board[..], 2, CELLS)
  {
    rows := new bool[CELLS, 10]((_, _) => false);
    cols := new bool[CELLS, 10]((_, _) => false);
    boxes := new bool[CELLS, 10]((_, _) => false);
    ghost var b := board[..];
    for i := 0 to CELLS
      invariant rows != cols && rows != boxes && cols != boxes && board[..] == b
      invariant Marks(rows, b, 0, i) && Marks(cols, b, 1, i) && Marks(boxes, b, 2, i)
    {
      var row, col := i / 9, i % 9;
      var box := row / 3 * 3 + col / 3;
      var val := board[i];
      MarkOne(rows, 0, row, val, b, i);
      MarkOne(cols, 1, col, val, b, i);
      MarkOne(boxes, 2, box, val, b, i);
    }
  }

  // The constructor: the pool encodes the board.
  method BuildPool(board: array<int>) returns (builder: PoolBuilder)
    requires IsBoard(board[..])
    ensures fresh(builder) && fresh(builder.nodes) && builder.Valid()
    ensures Encodes(builder.matrix, builder.headerOf, board[..])
  {
    hide Full, UsedBelow, NamesHeaders, ColumnTable, Encodes, IsName, NamedUpTo;
    var rows, cols, boxes := MarkGivens(board);
    builder := new PoolBuilder();
    builder.BuildCells(board);
    builder.BuildUnits(rows, cols, boxes, board[..]);
    builder.BuildRows(board, rows, cols, boxes);
  }

  // Builds the pool of the board and searches it: the board is completed if and only if it can be.
  method SolveBoard(board: array<int>) returns (found: bool)
    requires IsBoard(board[..])
    modifies board
    ensures found <==> Solvable(old(board[..]))
    ensures found ==> Complete(board[..]) && Extends(board[..], old(board[..]))
    ensures !found ==> board[..] == old(board[..])
  {
    hide Full, UsedBelow, NamesHeaders, ColumnTable, Encodes, Searchable, Solved, Coverable, Solvable, Complete,
         Extends, IsName, NamedUpTo;
    var builder := BuildPool(board);
    ghost var m, v, b := builder.matrix, builder.view, board[..];
    SearchStart(m, builder.nodes[..], v, builder.headerOf, b);
    var solver := new SudokuSolver(builder.nodes, board, 0);
    found := solver.Solve(m, v);
    EncodingCorrect(m, builder.headerOf, b);
    if found {
      SearchFound(m, builder.headerOf, b, solver.stack, board[..]);
    }
  }

  lemma SearchStart(m: Matrix, p: Pool, v: View, at: map<int, nat>, b: seq<int>)
    requires Full(m, p, v) && v.root == 0 && Encodes(m, at, b)
    ensures Searchable(m, p, v, 0, [], CELLS) && Live(v) == m.cols
  {
    hide Consistent, Encodes;
    FullGood(m, p, v);
    EncodingReadable(m, at, b);
  }

  lemma SearchFound(m: Matrix, at: map<int, nat>, b: seq<int>, stack: seq<nat>, g: seq<int>)
    requires Encodes(m, at, b) && |b| == CELLS && Solved(m, m.cols, [], stack, b, g)
    ensures Complete(g) && Extends(g, b)
  {
    assert stack[0..] == stack;
    hide Encodes, Complete, Extends, Readable, IsExactCover, WriteAll;
    CoverCompletes(m, at, b, stack);
  }

  // ---------- solveSudoku ----------

  ghost predicate Digits(s: string) {
    |s| == CELLS && forall i :: 0 <= i < CELLS ==> '0' <= s[i] <= '9'
  }

  ghost function BoardOf(s: string): seq<int> {
    seq(|s|, i requires 0 <= i < |s| => s[i] as int - '0' as int)
  }

  const NO_SOLUTION := "NoSolution"

  // A completed puzzle as a string, or the fixed answer when there is none.
  method SolveSudoku(puzzle: string) returns (result: string)
    requires |puzzle| == CELLS
    ensures Digits(puzzle) && Solvable(BoardOf(puzzle)) ==>
      Digits(result) && Complete(BoardOf(result)) && Extends(BoardOf(result), BoardOf(puzzle))
    ensures !(Digits(puzzle) && Solvable(BoardOf(puzzle))) ==> result == NO_SOLUTION
  {
    result := NO_SOLUTION;
    var board := new int[CELLS](_ => 0);
    var valid := true;
    for i := 0 to CELLS
      invariant forall k :: 0 <= k < i ==> board[k] == BoardOf(puzzle)[k]
      invariant valid <==> forall k :: 0 <= k < i ==> '0' <= puzzle[k] <= '9'
    {
      board[i] := puzzle[i] as int - '0' as int;
      valid := valid && 0 <= board[i] <= 9;
    }
    assert board[..] == BoardOf(puzzle);
    if valid {
      var solved := SolveBoard(board);
      if solved {
        result := Print(board);
      }
    }
  }

  method Print(board: array<int>) returns (s: string)
    requires Complete(board[..])
    ensures Digits(s) && BoardOf(s) == board[..]
  {
    s := "";
    for i := 0 to CELLS
      invariant |s| == i && forall k :: 0 <= k < i ==> '0' <= s[k] <= '9' && s[k] as int - '0' as int == board[k]
    {
      CompleteRange(board[..], i);
      s := s + [(board[i] + '0' as int) as char];
    }
  }

  lemma CompleteRange(g: seq<int>, i: nat)
    requires Complete(g) && i < CELLS
    ensures 1 <= g[i] <= 9
  {
    UnitCellAt(0, i);
    var s := UnitValues(g, 0, UnitOf(0, i));
    assert IsPermutation(s) && s[PlaceOf(0, i)] == g[i];
  }
}
