/**
 The solver of net/sudoku/sudoku.cc: it walks and rewrites its node pool in place.

 `SudokuSolver` is stated for any well-formed pool; module `SudokuPuzzle` builds the pool of a board.
 */
module SudokuSearch {
  import opened DancingLinks
  import opened ExactCover

  // ---------- Reading a row ----------

  // The loop that reads a cell and a value off the names of a row, starting at one of its nodes.
  function ReadRow(names: seq<int>, cell: int, val: int): (int, int) {
    if (cell != -1 && val != -1) || names == [] then (cell, val)
    else if names[0] < 100 then ReadRow(names[1..], names[0], val)
    else ReadRow(names[1..], cell, names[0] % 10)
  }

  ghost function RowNames(m: Matrix, n: nat): seq<int>
    requires ValidMatrix(m) && n in m.others
  {
    var ns := [n] + m.others[n];
    seq(|ns|, i requires 0 <= i < |ns| => RowNodeAt(m, n, i); m.name[ns[i]])
  }

  ghost function Entry(m: Matrix, n: nat): (int, int)
    requires ValidMatrix(m) && n in m.others
  {
    ReadRow(RowNames(m, n), -1, -1)
  }

  // Going once round any row finds a cell of the board and a value.
  ghost predicate Readable(m: Matrix, cells: nat) {
    ValidMatrix(m) && forall n :: n in m.others ==> 0 <= Entry(m, n).0 < cells && Entry(m, n).1 != -1
  }

  ghost function WriteAll(m: Matrix, board: seq<int>, xs: seq<nat>): (r: seq<int>)
    requires Readable(m, |board|) && AllRows(m, xs)
    ensures |r| == |board|
  {
    if xs == [] then board else
    WriteAll(m, board, xs[..|xs| - 1])[Entry(m, xs[|xs| - 1]).0 := Entry(m, xs[|xs| - 1]).1]
  }

  class SudokuSolver {
    const nodes: array<Node>
    const board: array<int>
    const root: nat
    var stack: seq<nat>

    constructor (nodes: array<Node>, board: array<int>, root: nat)
      ensures this.nodes == nodes && this.board == board && this.root == root && stack == []
    {
      this.nodes := nodes;
      this.board := board;
      this.root := root;
      stack := [];
    }

    // ---------- Single links ----------

    method UnlinkNode(j: nat)
      requires InPool(nodes[..], j)
      modifies nodes
      ensures nodes[..] == Unlink(old(nodes[..]), j)
    {
      nodes[nodes[j].down] := nodes[nodes[j].down].(up := nodes[j].up);
      nodes[nodes[j].up] := nodes[nodes[j].up].(down := nodes[j].down);
      nodes[nodes[j].col] := nodes[nodes[j].col].(size := nodes[nodes[j].col].size - 1);
    }

    method RelinkNode(j: nat)
      requires InPool(nodes[..], j)
      modifies nodes
      ensures nodes[..] == Relink(old(nodes[..]), j)
    {
      nodes[nodes[j].col] := nodes[nodes[j].col].(size := nodes[nodes[j].col].size + 1);
      nodes[nodes[j].down] := nodes[nodes[j].down].(up := j);
      nodes[nodes[j].up] := nodes[nodes[j].up].(down := j);
    }

    method UnlinkHeader(c: nat)
      requires InPool(nodes[..], c)
      modifies nodes
      ensures nodes[..] == HUnlink(old(nodes[..]), c)
    {
      nodes[nodes[c].right] := nodes[nodes[c].right].(left := nodes[c].left);
      nodes[nodes[c].left] := nodes[nodes[c].left].(right := nodes[c].right);
    }

    method RelinkHeader(c: nat)
      requires InPool(nodes[..], c)
      modifies nodes
      ensures nodes[..] == HRelink(old(nodes[..]), c)
    {
      nodes[nodes[c].right] := nodes[nodes[c].right].(left := c);
      nodes[nodes[c].left] := nodes[nodes[c].left].(right := c);
    }

    // ---------- cover and uncover ----------

    method CoverColumn(c: nat, ghost m: Matrix, ghost v: View)
      requires Good(m, nodes[..], v) && c in v.headers
      modifies nodes
      ensures nodes[..] == Cover(m, old(nodes[..]), v, c)
      ensures Good(m, nodes[..], CoverView(m, v, c))
    {
      hide Good, Midway, Linked, HLinked, HUnlink, InPool, Others;
      ghost var p := nodes[..];
      CoverStart(m, p, v, c);
      ghost var rows := v.lists[c];
      UnlinkHeader(c);
      ghost var i := 0;
      var row := nodes[c].down;
      while row != c
        invariant 0 <= i <= |rows|
        invariant nodes[..] == UnlinkRows(m, HUnlink(p, c), rows[..i])
        invariant row == (rows + [c])[i]
        decreases |rows| - i
      {
        MidwaySteps(m, p, v, c, i, 0);
        UnlinkRow(row, m, p, v, c, i);
        MidwayAt(m, p, v, c, i, |Others(m, row)|);
        i := i + 1;
        row := nodes[row].down;
      }
      CoverEnd(m, p, v, c, i);
    }

    // The inner loop of cover: unlinks the rest of one row.
    method UnlinkRow(row: nat, ghost m: Matrix, ghost p: Pool, ghost v: View, ghost c: nat, ghost i: nat)
      requires Good(m, p, v) && c in v.headers && c in v.lists && i < |v.lists[c]| && row == v.lists[c][i]
      requires nodes[..] == Midway(m, p, v, c, i, 0)
      modifies nodes
      ensures nodes[..] == Midway(m, p, v, c, i, |Others(m, row)|)
    {
      hide Good, Midway, Unlink, Linked, InPool, Others;
      ghost var o := Others(m, row);
      MidwayAt(m, p, v, c, i, 0);
      ghost var k := 0;
      var j := nodes[row].right;
      while j != row
        invariant 0 <= k <= |o|
        invariant nodes[..] == Midway(m, p, v, c, i, k)
        invariant j == (o + [row])[k]
        decreases |o| - k
      {
        MidwayAt(m, p, v, c, i, k);
        MidwaySteps(m, p, v, c, i, k);
        UnlinkNode(j);
        k := k + 1;
        MidwayAt(m, p, v, c, i, k);
        j := nodes[j].right;
      }
      MidwayAt(m, p, v, c, i, k);
    }

    // Undoes the cover of `c` that turned pool `p` into the present one.
    method UncoverColumn(c: nat, ghost m: Matrix, ghost p: Pool, ghost v: View)
      requires Good(m, p, v) && c in v.headers && c in v.lists
      requires nodes[..] == Cover(m, p, v, c)
      modifies nodes
      ensures nodes[..] == p
    {
      hide Good, Midway, Linked, HLinked, HUnlink, InPool, Others;
      ghost var rows := v.lists[c];
      CoverStart(m, p, v, c);
      UncoverStart(m, p, v, c);
      ghost var i := |rows|;
      var row := nodes[c].up;
      while row != c
        invariant 0 <= i <= |rows|
        invariant nodes[..] == UnlinkRows(m, HUnlink(p, c), rows[..i])
        invariant row == ([c] + rows)[i]
        decreases i
      {
        i := i - 1;
        MidwaySteps(m, p, v, c, i, 0);
        RelinkRow(row, m, p, v, c, i);
        MidwayAt(m, p, v, c, i, 0);
        row := nodes[row].up;
      }
      UncoverEnd(m, p, v, c, i);
      RelinkHeader(c);
      HRelinkUndoesHUnlink(p, c);
    }

    // The inner loop of uncover.
    method RelinkRow(row: nat, ghost m: Matrix, ghost p: Pool, ghost v: View, ghost c: nat, ghost i: nat)
      requires Good(m, p, v) && c in v.headers && c in v.lists && i < |v.lists[c]| && row == v.lists[c][i]
      requires nodes[..] == Midway(m, p, v, c, i, |Others(m, row)|)
      modifies nodes
      ensures nodes[..] == Midway(m, p, v, c, i, 0)
    {
      hide Good, Midway, Unlink, Relink, Linked, InPool, Others;
      ghost var o := Others(m, row);
      ghost var k := |o|;
      MidwayAt(m, p, v, c, i, k);
      var j := nodes[row].left;
      while j != row
        invariant 0 <= k <= |o|
        invariant nodes[..] == Midway(m, p, v, c, i, k)
        invariant j == ([row] + o)[k]
        decreases k
      {
        MidwayAt(m, p, v, c, i, k);
        k := k - 1;
        MidwayAt(m, p, v, c, i, k);
        MidwaySteps(m, p, v, c, i, k);
        RelinkBack(Midway(m, p, v, c, i, k), j);
        RelinkNode(j);
        j := nodes[j].left;
      }
      MidwayAt(m, p, v, c, i, k);
    }

    // ---------- Choosing a column ----------

    // The first live column with at most one row, or else the first with the fewest rows.
    method MinColumn(ghost m: Matrix, ghost v: View) returns (c: nat, ghost k: nat)
      requires Good(m, nodes[..], v) && v.root == root && v.headers != []
      ensures k < |v.headers| && c == v.headers[k]
      ensures Rows(v, k) <= 1 || forall i :: 0 <= i < |v.headers| ==> Rows(v, k) <= Rows(v, i)
      ensures forall i :: 0 <= i < k ==> Rows(v, i) > 1 && Rows(v, i) > Rows(v, k)
    {
      hide Good, Rows;
      HeaderAt(m, nodes[..], v, 0);
      c, k := nodes[root].right, 0;
      var minSize := nodes[c].size;
      if minSize > 1 {
        ghost var i := 1;
        HeaderAt(m, nodes[..], v, i);
        var cc := nodes[c].right;
        while cc != root
          invariant 1 <= i <= |v.headers| && cc == (v.headers + [root])[i]
          invariant k < i && c == v.headers[k] && minSize == Rows(v, k) > 1
          invariant forall h :: 0 <= h < i ==> Rows(v, k) <= Rows(v, h)
          invariant forall h :: 0 <= h < k ==> Rows(v, h) > Rows(v, k)
          decreases |v.headers| - i
        {
          HeaderAt(m, nodes[..], v, i);
          if minSize > nodes[cc].size {
            c, k := cc, i;
            minSize := nodes[cc].size;
            if minSize <= 1 {
              break;
            }
          }
          i := i + 1;
          HeaderAt(m, nodes[..], v, i);
          cc := nodes[cc].right;
        }
        HeaderAt(m, nodes[..], v, i);
      }
    }

    // ---------- Reading the solution off the stack ----------

    method ReadEntry(n0: nat, ghost m: Matrix) returns (cell: int, val: int)
      requires Readable(m, board.Length) && RowRings(m, nodes[..]) && n0 in m.others
      ensures (cell, val) == Entry(m, n0)
    {
      hide RowNodes, DistinctCols;
      ghost var ns := [n0] + m.others[n0];
      ghost var t := 0;
      var n := n0;
      cell, val := -1, -1;
      assert RowNames(m, n0)[0..] == RowNames(m, n0);
      while cell == -1 || val == -1
        invariant 0 <= t <= |ns| && n == (ns + [n0])[t]
        invariant ReadRow(RowNames(m, n0)[t..], cell, val) == Entry(m, n0)
        decreases |ns| - t
      {
        assert t < |ns|;
        RowNodeAt(m, n0, t);
        assert nodes[n].name == RowNames(m, n0)[t];
        if nodes[n].name < 100 {
          cell := nodes[n].name;
        } else {
          val := nodes[n].name % 10;
        }
        assert RowNames(m, n0)[t..][1..] == RowNames(m, n0)[t + 1..];
        assert HRing(nodes[..], n0, m.others[n0]);
        assert (ns + [n0])[t + 1] == (m.others[n0] + [n0])[t];
        n := nodes[n].right;
        t := t + 1;
      }
    }

    method WriteBoard(ghost m: Matrix)
      requires Readable(m, board.Length) && RowRings(m, nodes[..]) && AllRows(m, stack)
      modifies board
      ensures board[..] == WriteAll(m, old(board[..]), stack)
    {
      hide ValidMatrix, RowRings;
      ghost var b := board[..];
      for i := 0 to |stack|
        invariant board[..] == WriteAll(m, b, stack[..i])
      {
        var cell, val := ReadEntry(stack[i], m);
        assert stack[..i + 1][..i] == stack[..i];
        board[cell] := val;
      }
      assert stack[..|stack|] == stack;
    }

    // ---------- solve ----------

    // Covers the columns of the rest of a row.
    method CoverRest(row: nat, ghost m: Matrix, ghost v: View)
      requires RowLive(m, nodes[..], v, row)
      modifies nodes
      ensures nodes[..] == CoverAll(m, old(nodes[..]), v, RestCols(m, row))
    {
      hide RowLive, Good, CoverAll, CoverAllView, Cover, CoverView, RestCols, Others;
      ghost var p, o, cs := nodes[..], Others(m, row), RestCols(m, row);
      ghost var k := 0;
      CoverAllAt(m, p, v, row, 0);
      var j := nodes[row].right;
      while j != row
        invariant 0 <= k <= |o| == |cs|
        invariant nodes[..] == CoverAll(m, p, v, cs[..k])
        invariant j == (o + [row])[k]
        decreases |o| - k
      {
        CoverAllAt(m, p, v, row, k);
        CoverColumn(nodes[j].col, m, CoverAllView(m, v, cs[..k]));
        k := k + 1;
        CoverAllAt(m, p, v, row, k);
        j := nodes[j].right;
      }
      CoverAllAt(m, p, v, row, k);
    }

    // Uncovers them again, last one first.
    method UncoverRest(row: nat, ghost m: Matrix, ghost p: Pool, ghost v: View)
      requires RowLive(m, p, v, row)
      requires nodes[..] == CoverAll(m, p, v, RestCols(m, row))
      modifies nodes
      ensures nodes[..] == p
    {
      hide RowLive, Good, CoverAll, CoverAllView, Cover, CoverView, RestCols, Others;
      ghost var o, cs := Others(m, row), RestCols(m, row);
      ghost var k := |cs|;
      CoverAllAt(m, p, v, row, k);
      var j := nodes[row].left;
      while j != row
        invariant 0 <= k <= |o| == |cs|
        invariant nodes[..] == CoverAll(m, p, v, cs[..k])
        invariant j == ([row] + o)[k]
        decreases k
      {
        CoverAllAt(m, p, v, row, k);
        k := k - 1;
        CoverAllAt(m, p, v, row, k);
        assert nodes[j].col == cs[k];
        UncoverColumn(nodes[j].col, m, CoverAll(m, p, v, cs[..k]), CoverAllView(m, v, cs[..k]));
        j := nodes[j].left;
      }
      CoverAllAt(m, p, v, row, k);
    }

    // Searches for an exact cover of the live columns.  On success the rows chosen are on the stack and
    // on the board; on failure nothing at all has changed.
    method Solve(ghost m: Matrix, ghost v: View) returns (found: bool)
      requires Searchable(m, nodes[..], v, root, stack, board.Length)
      modifies this, nodes, board
      ensures found <==> Coverable(m, Live(v))
      ensures found ==> Solved(m, Live(v), old(stack), stack, old(board[..]), board[..])
      ensures !found ==> nodes[..] == old(nodes[..]) && board[..] == old(board[..]) && stack == old(stack)
      decreases |Live(v)|
    {
      RootRing(m, nodes[..], v);
      if nodes[root].left == root {
        EmptyCover(m);
        assert stack[|stack|..] == [];
        assert Live(v) == {};
        WriteBoard(m);
        return true;
      }
      found := Branch(m, v);
    }

    method Branch(ghost m: Matrix, ghost v: View) returns (found: bool)
      requires Searchable(m, nodes[..], v, root, stack, board.Length) && v.headers != []
      modifies this, nodes, board
      ensures found <==> Coverable(m, Live(v))
      ensures found ==> Solved(m, Live(v), old(stack), stack, old(board[..]), board[..])
      ensures !found ==> nodes[..] == old(nodes[..]) && board[..] == old(board[..]) && stack == old(stack)
      decreases |Live(v)|, 1
    {
      hide Good, RowLive, Tried, Live, Cover, CoverView, Readable, Coverable, Rows, Solved, NoCoverBelow;
      ghost var p := nodes[..];
      var col, k := MinColumn(m, v);
      CoverStart(m, p, v, col);
      CoverColumn(col, m, v);
      ghost var c, rows, v1, i := col, v.lists[col], CoverView(m, v, col), 0;
      BranchAt(m, p, v, c, 0);
      NoCoverNone(m, v, rows);
      var row := nodes[col].down;
      while row != col
        invariant nodes[..] == Cover(m, p, v, c) && stack == old(stack) && board[..] == old(board[..])
        invariant 0 <= i <= |rows| && row == (rows + [c])[i]
        invariant NoCoverBelow(m, v, rows[..i])
        decreases |rows| - i
      {
        BranchAt(m, p, v, c, i);
        found := TryOne(row, m, v, v1);
        if found {
          return;
        }
        NoCoverSnoc(m, v, rows, i);
        i := i + 1;
        BranchAt(m, p, v, c, i);
        row := nodes[row].down;
      }
      BranchAt(m, p, v, c, i);
      assert rows[..i] == rows;
      UncoverColumn(col, m, p, v);
      BranchFails(m, p, v, c);
      found := false;
    }

    // One round of the loop in solve: push the row, cover its columns, recurse; on failure put all back.
    method TryOne(row: nat, ghost m: Matrix, ghost v: View, ghost v1: View) returns (found: bool)
      requires Readable(m, board.Length) && v.root == root && AllRows(m, stack)
      requires RowLive(m, nodes[..], v1, row) && Tried(m, nodes[..], v, v1, row)
      modifies this, nodes, board
      ensures found ==> Coverable(m, Live(v))
      ensures found ==> Solved(m, Live(v), old(stack), stack, old(board[..]), board[..])
      ensures !found ==> row in m.others && !Coverable(m, Live(v) - RowCols(m, row))
      ensures !found ==> nodes[..] == old(nodes[..]) && board[..] == old(board[..]) && stack == old(stack)
      decreases |Live(v)|, 0
    {
      hide Good, RowLive, Live, CoverAll, CoverAllView, RestCols, RowCols, Readable, Coverable, Solved;
      ghost var p1 := nodes[..];
      stack := stack + [row];
      CoverRest(row, m, v1);
      found := Solve(m, CoverAllView(m, v1, RestCols(m, row)));
      if found {
        FoundRow(m, v, row, old(stack), stack, old(board[..]), board[..]);
        return;
      }
      stack := stack[..|stack| - 1];
      UncoverRest(row, m, p1, v1);
    }
  }

  // What solve needs of the solver's state.
  ghost predicate Searchable(m: Matrix, p: Pool, v: View, root: nat, stack: seq<nat>, cells: nat) {
    Good(m, p, v) && v.root == root && Readable(m, cells) && AllRows(m, stack)
  }

  ghost predicate AllRows(m: Matrix, xs: seq<nat>) {
    forall i :: 0 <= i < |xs| ==> xs[i] in m.others
  }

  // What solve leaves behind when it succeeds: the rows pushed are an exact cover of `h`, and every row
  // of the stack is written on the board.
  ghost predicate Solved(m: Matrix, h: set<nat>, before: seq<nat>, stack: seq<nat>, b0: seq<int>, b: seq<int>) {
    && Readable(m, |b0|) && AllRows(m, stack)
    && before <= stack && IsExactCover(m, h, stack[|before|..])
    && b == WriteAll(m, b0, stack)
  }

  ghost predicate NoCoverBelow(m: Matrix, v: View, rows: seq<nat>) {
    forall i :: 0 <= i < |rows| ==> rows[i] in m.others && !Coverable(m, Live(v) - RowCols(m, rows[i]))
  }

  lemma NoCoverNone(m: Matrix, v: View, rows: seq<nat>)
    ensures NoCoverBelow(m, v, rows[..0])
  {
  }

  lemma NoCoverSnoc(m: Matrix, v: View, rows: seq<nat>, i: nat)
    requires i < |rows| && NoCoverBelow(m, v, rows[..i])
    requires rows[i] in m.others && !Coverable(m, Live(v) - RowCols(m, rows[i]))
    ensures NoCoverBelow(m, v, rows[..i + 1])
  {
    forall h | 0 <= h < i + 1
      ensures rows[h] in m.others && !Coverable(m, Live(v) - RowCols(m, rows[h]))
    {
      if h < i {
        assert rows[h] == rows[..i][h];
      }
    }
  }

  // ---------- Facts at the ends of the walks ----------

  lemma CoverStart(m: Matrix, p: Pool, v: View, c: nat)
    requires Good(m, p, v) && c in v.headers
    ensures c < |p| && InPool(p, c) && HLinked(p, c) && c in v.lists
    ensures |HUnlink(p, c)| == |p| && InPool(HUnlink(p, c), c)
    ensures HUnlink(p, c)[c].down == (v.lists[c] + [c])[0]
    ensures UnlinkRows(m, HUnlink(p, c), v.lists[c][..0]) == HUnlink(p, c)
    ensures Distinct([c] + v.lists[c])
  {
    HeaderNeighbours(m, p, v, c);
    assert InPool(p, c);
    HUnlinkStatic(p, c);
    assert ([c] + v.lists[c])[0] == c;
  }

  lemma CoverEnd(m: Matrix, p: Pool, v: View, c: nat, i: nat)
    requires Good(m, p, v) && c in v.headers && c in v.lists && i <= |v.lists[c]|
    requires (v.lists[c] + [c])[i] == c && Distinct([c] + v.lists[c])
    ensures i == |v.lists[c]| && v.lists[c][..i] == v.lists[c]
    ensures Good(m, Cover(m, p, v, c), CoverView(m, v, c))
  {
    hide Good, Cover, CoverView, Live, Distinct;
    CoverGood(m, p, v, c);
    HeaderApart(c, v.lists[c]);
  }

  lemma HeaderApart(c: nat, ns: seq<nat>)
    requires Distinct([c] + ns)
    ensures forall k :: 0 <= k < |ns| ==> ns[k] != c
  {
    forall k | 0 <= k < |ns| ensures ns[k] != c {
      assert ([c] + ns)[0] == c && ([c] + ns)[k + 1] == ns[k];
    }
  }

  // The column just covered still has its ring.
  lemma CoveredRing(m: Matrix, p: Pool, v: View, c: nat)
    requires Good(m, p, v) && c in v.headers && c in v.lists
    ensures c < |p| && |Cover(m, p, v, c)| == |p| && VRing(Cover(m, p, v, c), c, v.lists[c])
    ensures Distinct([c] + v.lists[c])
  {
    hide HRing, VRing, RowRings, Faithful, ValidMatrix, HLinked, UnlinkRows, HUnlink, DropRows;
    CoverGood(m, p, v, c);
    CoverLength(m, p, v, c);
  }

  lemma CoverLength(m: Matrix, p: Pool, v: View, c: nat)
    requires c in v.lists
    ensures |Cover(m, p, v, c)| == |p|
  {
    UnlinkRowsLength(m, if InPool(p, c) then HUnlink(p, c) else p, v.lists[c]);
  }

  lemma UncoverStart(m: Matrix, p: Pool, v: View, c: nat)
    requires Good(m, p, v) && c in v.headers && c in v.lists
    ensures |Cover(m, p, v, c)| == |p| && c < |p|
    ensures Cover(m, p, v, c)[c].up == ([c] + v.lists[c])[|v.lists[c]|]
    ensures v.lists[c][..|v.lists[c]|] == v.lists[c]
  {
    hide Good, Cover;
    CoveredRing(m, p, v, c);
    assert (v.lists[c] + [c])[|v.lists[c]|] == c;
  }

  lemma UncoverEnd(m: Matrix, p: Pool, v: View, c: nat, i: nat)
    requires c in v.lists && i <= |v.lists[c]|
    requires ([c] + v.lists[c])[i] == c && Distinct([c] + v.lists[c])
    ensures i == 0 && v.lists[c][..i] == []
  {
    assert ([c] + v.lists[c])[0] == c;
  }

  // What one step of a walk over row `i` of column `c` finds, in either direction.
  lemma MidwayAt(m: Matrix, p: Pool, v: View, c: nat, i: nat, k: nat)
    requires Good(m, p, v) && c in v.headers && c in v.lists && i < |v.lists[c]|
    requires k <= |Others(m, v.lists[c][i])|
    ensures
      var s, rows := Midway(m, p, v, c, i, k), v.lists[c];
      var row := rows[i];
      var o := Others(m, row);
      var a, b := [row] + o, o + [row];
      && row < |s| && a[k] < |s| && b[k] < |s| && |s| == |p|
      && s[a[k]].right == b[k] && s[b[k]].left == a[k]
      && s[row].down == (rows + [c])[i + 1] && s[row].up == ([c] + rows)[i]
      && (k < |o| ==> Linked(s, o[k]) && InPool(s, o[k]))
      && (b[k] == row <==> k == |o|) && (a[k] == row <==> k == 0)
  {
    MidwayWalk(m, p, v, c, i, k);
    var rows := v.lists[c];
    assert ([c] + rows)[i + 1] == rows[i] == (rows + [c])[i];
    SelfNotInRow(m, rows[i], k);
  }

  lemma SelfNotInRow(m: Matrix, row: nat, k: nat)
    requires ValidMatrix(m) && row in m.others && k <= |m.others[row]|
    ensures (m.others[row] + [row])[k] == row <==> k == |m.others[row]|
    ensures ([row] + m.others[row])[k] == row <==> k == 0
  {
    assert forall x :: x in m.others[row] ==> x != row;
  }

  // ---------- The header ring ----------

  ghost function Rows(v: View, i: nat): nat {
    if i < |v.headers| && v.headers[i] in v.lists then |v.lists[v.headers[i]]| else 0
  }

  lemma HeaderAt(m: Matrix, p: Pool, v: View, i: nat)
    requires Good(m, p, v) && i <= |v.headers|
    ensures v.root < |p| && ([v.root] + v.headers)[i] < |p|
    ensures p[([v.root] + v.headers)[i]].right == (v.headers + [v.root])[i]
    ensures (v.headers + [v.root])[i] == v.root <==> i == |v.headers|
    ensures i < |v.headers| ==> v.headers[i] < |p| && p[v.headers[i]].size == Rows(v, i)
  {
    assert ([v.root] + v.headers)[0] == v.root;
    if i < |v.headers| {
      assert v.headers[i] in v.headers;
      assert ([v.root] + v.headers)[i + 1] == v.headers[i];
    }
  }

  lemma RootRing(m: Matrix, p: Pool, v: View)
    requires Good(m, p, v)
    ensures v.root < |p|
    ensures p[v.root].left == v.root <==> v.headers == []
  {
    var n := |v.headers|;
    assert ([v.root] + v.headers)[0] == v.root && (v.headers + [v.root])[n] == v.root;
  }

  // ---------- Trying a row ----------

  // The columns of the rest of the row, in walking order.
  ghost function RestCols(m: Matrix, row: nat): (cs: seq<nat>)
  {
    var o := Others(m, row);
    seq(|o|, i requires 0 <= i < |o| => if o[i] in m.col then m.col[o[i]] else 0)
  }

  ghost predicate RowLive(m: Matrix, p: Pool, v: View, row: nat) {
    Good(m, p, v) && row in m.others && forall x :: x in m.others[row] ==> m.col[x] in Live(v)
  }

  // A walk over a row, `k` nodes away from its start, in a pool that keeps the row.
  ghost predicate AtStep(q: Pool, row: nat, o: seq<nat>, k: nat) {
    && k <= |o| && row < |q| && ([row] + o)[k] < |q| && (o + [row])[k] < |q|
    && q[([row] + o)[k]].right == (o + [row])[k]
    && q[(o + [row])[k]].left == ([row] + o)[k]
    && ((o + [row])[k] == row <==> k == |o|)
    && (([row] + o)[k] == row <==> k == 0)
  }

  // Covering the next column of the row is the next step of covering them all.
  ghost predicate NextCover(m: Matrix, p: Pool, v: View, cs: seq<nat>, k: nat) {
    && k < |cs|
    && var q, w := CoverAll(m, p, v, cs[..k]), CoverAllView(m, v, cs[..k]);
      && cs[k] in w.headers && cs[k] in w.lists
      && CoverAll(m, p, v, cs[..k + 1]) == Cover(m, q, w, cs[k])
      && CoverAllView(m, v, cs[..k + 1]) == CoverView(m, w, cs[k])
  }

  lemma CoverAllAt(m: Matrix, p: Pool, v: View, row: nat, k: nat)
    requires RowLive(m, p, v, row) && k <= |RestCols(m, row)|
    ensures |RestCols(m, row)| == |Others(m, row)|
    ensures Good(m, CoverAll(m, p, v, RestCols(m, row)[..k]), CoverAllView(m, v, RestCols(m, row)[..k]))
    ensures AtStep(CoverAll(m, p, v, RestCols(m, row)[..k]), row, Others(m, row), k)
    ensures ColsAt(m, CoverAll(m, p, v, RestCols(m, row)[..k]), row)
    ensures k == 0 ==> CoverAll(m, p, v, RestCols(m, row)[..k]) == p
    ensures k == |RestCols(m, row)| ==> RestCols(m, row)[..k] == RestCols(m, row)
    ensures k < |RestCols(m, row)| ==> NextCover(m, p, v, RestCols(m, row), k)
  {
    hide RowLive, Good, RestCols, CoverAll, CoverAllView, Cover, CoverView, Live, AtStep, ColsAt;
    RestPrefix(m, p, v, row, k);
    RestSteps(m, p, v, row, k);
    RestWalk(m, CoverAll(m, p, v, RestCols(m, row)[..k]), CoverAllView(m, v, RestCols(m, row)[..k]), row, k);
  }

  // The nodes of the rest of the row are in the columns of the rest of the row.
  ghost predicate ColsAt(m: Matrix, q: Pool, row: nat) {
    && |RestCols(m, row)| == |Others(m, row)|
    && forall i :: 0 <= i < |Others(m, row)| ==>
      Others(m, row)[i] < |q| && q[Others(m, row)[i]].col == RestCols(m, row)[i]
  }

  lemma RestPrefix(m: Matrix, p: Pool, v: View, row: nat, k: nat)
    requires RowLive(m, p, v, row) && k <= |RestCols(m, row)|
    ensures
      var cs := RestCols(m, row);
      var q, w := CoverAll(m, p, v, cs[..k]), CoverAllView(m, v, cs[..k]);
      row in m.others && |cs| == |m.others[row]| && Good(m, q, w) && (k < |cs| ==> cs[k] in Live(w))
  {
    var cs := RestCols(m, row);
    assert |cs| == |m.others[row]|;
    hide Consistent, Faithful, RestCols, CoverAll, CoverAllView, Live;
    RestColsLive(m, p, v, row);
    CoverAllPrefix(m, p, v, cs, k);
    if k < |cs| {
      assert cs[k] !in cs[..k];
    }
  }

  lemma RestColsLive(m: Matrix, p: Pool, v: View, row: nat)
    requires RowLive(m, p, v, row)
    ensures Distinct(RestCols(m, row)) && forall i :: 0 <= i < |RestCols(m, row)| ==> RestCols(m, row)[i] in Live(v)
  {
    assert DistinctCols(m, m.others[row]);
  }

  lemma CoverAllPrefix(m: Matrix, p: Pool, v: View, cs: seq<nat>, k: nat)
    requires Good(m, p, v) && Distinct(cs) && (forall i :: 0 <= i < |cs| ==> cs[i] in Live(v)) && k <= |cs|
    ensures Good(m, CoverAll(m, p, v, cs[..k]), CoverAllView(m, v, cs[..k]))
    ensures CoverAllView(m, v, cs[..k]).root == v.root
    ensures Live(CoverAllView(m, v, cs[..k])) == Live(v) - Elements(cs[..k])
  {
    hide Good;
    CoverAllGood(m, p, v, cs[..k]);
  }

  lemma RestWalk(m: Matrix, q: Pool, w: View, row: nat, k: nat)
    requires Good(m, q, w) && row in m.others && k <= |m.others[row]|
    ensures AtStep(q, row, m.others[row], k)
    ensures ColsAt(m, q, row)
    ensures forall c :: c in Live(w) ==> c in w.headers && c in w.lists
  {
    hide Good, ValidMatrix, HRing, RestCols, Live;
    RowFacts(m, q, w, row);
    SelfNotInRow(m, row, k);
    RestColsAre(m, row);
    RowStep(q, row, m.others[row], k);
    forall i | 0 <= i < |m.others[row]|
      ensures m.others[row][i] < |q| && q[m.others[row][i]].col == RestCols(m, row)[i]
    {
      RowNodeAt(m, row, i + 1);
      assert ([row] + m.others[row])[i + 1] == m.others[row][i];
    }
    forall c | c in Live(w) ensures c in w.headers && c in w.lists {
      LiveColumn(m, q, w, c);
    }
  }

  lemma RowFacts(m: Matrix, q: Pool, w: View, row: nat)
    requires Good(m, q, w) && row in m.others
    ensures ValidMatrix(m) && Typed(m) && HRing(q, row, m.others[row])
    ensures forall n :: n in m.others ==> n < |q| && q[n].col == m.col[n]
  {
  }

  lemma RestColsAre(m: Matrix, row: nat)
    requires ValidMatrix(m) && row in m.others
    ensures |RestCols(m, row)| == |m.others[row]|
    ensures forall i :: 0 <= i < |m.others[row]| ==>
      m.others[row][i] in m.col && RestCols(m, row)[i] == m.col[m.others[row][i]]
  {
    hide RowNodes;
    forall i | 0 <= i < |m.others[row]| ensures m.others[row][i] in m.col {
      RowNodeAt(m, row, i + 1);
    }
  }

  lemma RowStep(q: Pool, row: nat, o: seq<nat>, k: nat)
    requires HRing(q, row, o) && k <= |o|
    ensures row < |q| && ([row] + o)[k] < |q| && (o + [row])[k] < |q|
    ensures q[([row] + o)[k]].right == (o + [row])[k] && q[(o + [row])[k]].left == ([row] + o)[k]
  {
    assert ([row] + o)[0] == row;
  }

  lemma RestSteps(m: Matrix, p: Pool, v: View, row: nat, k: nat)
    requires k <= |RestCols(m, row)|
    ensures
      var cs := RestCols(m, row);
      var q, w := CoverAll(m, p, v, cs[..k]), CoverAllView(m, v, cs[..k]);
      && (k == 0 ==> q == p)
      && (k == |cs| ==> cs[..k] == cs)
      && (k < |cs| && cs[k] in w.lists ==>
        && CoverAll(m, p, v, cs[..k + 1]) == Cover(m, q, w, cs[k])
        && CoverAllView(m, v, cs[..k + 1]) == CoverView(m, w, cs[k]))
  {
    hide Cover, CoverView;
    var cs := RestCols(m, row);
    if k < |cs| {
      assert cs[..k + 1][..k] == cs[..k] && cs[..k + 1][k] == cs[k];
    }
  }

  lemma RowColsSplit(m: Matrix, row: nat)
    requires ValidMatrix(m) && row in m.others
    ensures RowCols(m, row) == {m.col[row]} + Elements(RestCols(m, row))
  {
    var o, cs := m.others[row], RestCols(m, row);
    forall c | c in RowCols(m, row) ensures c == m.col[row] || c in cs {
      var x :| x in RowNodes(m, row) && x in m.col && m.col[x] == c;
      if x != row {
        assert cs[IndexOf(o, x)] == c;
      }
    }
    forall c | c in cs ensures c in RowCols(m, row) {
      var i := IndexOf(cs, c);
      assert o[i] in RowNodes(m, row);
    }
    OwnColumn(m, row);
  }

  // The rows below a covered column: each can be tried, and trying it leaves fewer live columns.
  lemma BranchAt(m: Matrix, p: Pool, v: View, c: nat, i: nat)
    requires Good(m, p, v) && c in v.headers && c in v.lists && i <= |v.lists[c]|
    ensures
      var p1, v1, rows := Cover(m, p, v, c), CoverView(m, v, c), v.lists[c];
      && c < |p1| && ([c] + rows)[i] < |p1|
      && p1[([c] + rows)[i]].down == (rows + [c])[i]
      && ((rows + [c])[i] == c <==> i == |rows|)
      && (i < |rows| ==> RowLive(m, p1, v1, rows[i]) && Tried(m, p1, v, v1, rows[i]))
  {
    hide Good, Cover, CoverView, RowLive, Tried;
    var p1, v1, rows := Cover(m, p, v, c), CoverView(m, v, c), v.lists[c];
    CoveredRing(m, p, v, c);
    assert ([c] + rows)[0] == c;
    if i < |rows| {
      assert ([c] + rows)[i + 1] == rows[i];
      TryRow(m, p, v, c, rows[i]);
    }
  }

  ghost predicate Tried(m: Matrix, p1: Pool, v: View, v1: View, row: nat) {
    var q, w := CoverAll(m, p1, v1, RestCols(m, row)), CoverAllView(m, v1, RestCols(m, row));
    && row in m.others && RowCols(m, row) <= Live(v)
    && Good(m, q, w) && w.root == v.root
    && Live(w) == Live(v) - RowCols(m, row)
    && |Live(w)| < |Live(v)|
  }

  lemma LiveRow(m: Matrix, v: View, c: nat, row: nat)
    requires ValidMatrix(m) && ValidLists(m, v) && Faithful(m, v) && c in v.headers && row in v.lists[c]
    ensures row in m.others && m.col[row] == c && RowCols(m, row) <= Live(v) && c in Live(v)
    ensures forall x :: x in m.others[row] ==> m.col[x] in Live(v) - {c}
  {
    hide Distinct, DistinctCols;
    assert Active(m, v, row);
    OwnColumn(m, row);
    forall x | x in m.others[row] ensures m.col[x] in Live(v) - {c} {
      assert x in RowNodes(m, row);
    }
  }

  lemma TryRow(m: Matrix, p: Pool, v: View, c: nat, row: nat)
    requires Good(m, p, v) && c in v.headers && row in v.lists[c]
    ensures RowLive(m, Cover(m, p, v, c), CoverView(m, v, c), row)
    ensures Tried(m, Cover(m, p, v, c), v, CoverView(m, v, c), row)
  {
    var p1, v1, cs := Cover(m, p, v, c), CoverView(m, v, c), RestCols(m, row);
    hide RowRings, ColumnRings, HRing, ValidLists, Faithful, RowCols, Live, Cover, CoverView, RestCols;
    LiveRow(m, v, c, row);
    CoverGood(m, p, v, c);
    TriedRow(m, p1, v, v1, c, row);
  }

  lemma TriedRow(m: Matrix, p1: Pool, v: View, v1: View, c: nat, row: nat)
    requires RowLive(m, p1, v1, row) && v1.root == v.root
    requires Live(v1) == Live(v) - {c} && c in Live(v)
    requires m.col[row] == c && RowCols(m, row) <= Live(v)
    ensures Tried(m, p1, v, v1, row)
  {
    var cs := RestCols(m, row);
    hide RowRings, ColumnRings, HRing, ValidLists, Faithful, RowCols, Live, Elements, CoverAll, CoverAllView,
         RestCols;
    RowColsSplit(m, row);
    RestColsLive(m, p1, v1, row);
    CoverAllGood(m, p1, v1, cs);
    assert Live(CoverAllView(m, v1, cs)) == Live(v) - RowCols(m, row);
    Smaller(Live(CoverAllView(m, v1, cs)), Live(v), c);
  }

  lemma Smaller(a: set<nat>, b: set<nat>, c: nat)
    requires a <= b && c in b && c !in a
    ensures |a| < |b|
  {
    var d := b - a;
    assert c in d;
    assert b == a + d;
  }

  lemma FoundRow(m: Matrix, v: View, row: nat, before: seq<nat>, stack: seq<nat>, b0: seq<int>, b: seq<int>)
    requires row in m.others && RowCols(m, row) <= Live(v)
    requires Solved(m, Live(v) - RowCols(m, row), before + [row], stack, b0, b)
    ensures Solved(m, Live(v), before, stack, b0, b) && Coverable(m, Live(v))
  {
    hide IsExactCover, RowCols, Readable;
    var xs := stack[|before| + 1..];
    ExtendCover(m, Live(v), row, xs);
    assert stack[|before|..] == [row] + xs;
  }

  lemma BranchFails(m: Matrix, p: Pool, v: View, c: nat)
    requires Good(m, p, v) && c in v.headers && c in v.lists && NoCoverBelow(m, v, v.lists[c])
    ensures !Coverable(m, Live(v))
  {
    NoRowNoCover(m, v, c);
  }
}
