/**
 The node pool of the sudoku solver and the theory of its links.

 Pointers are indices into the pool.  Removing a node leaves the node's own links in place, which is
 what makes removal undoable; `Unlink`, `Cover` and `CoverAll` are the pure counterparts of what the
 solver does to its pool, and the lemmas hold for pools and matrices of any size.
 */
module DancingLinks {
  import opened Sequences

  datatype Node = Node(left: nat, right: nat, up: nat, down: nat, col: nat, name: int, size: int)

  type Pool = seq<Node>

  // ---------- Single link operations ----------

  function SetLeft(p: Pool, i: nat, x: nat): Pool
    requires i < |p|
  {
    p[i := p[i].(left := x)]
  }

  function SetRight(p: Pool, i: nat, x: nat): Pool
    requires i < |p|
  {
    p[i := p[i].(right := x)]
  }

  function SetUp(p: Pool, i: nat, x: nat): Pool
    requires i < |p|
  {
    p[i := p[i].(up := x)]
  }

  function SetDown(p: Pool, i: nat, x: nat): Pool
    requires i < |p|
  {
    p[i := p[i].(down := x)]
  }

  function AddSize(p: Pool, i: nat, d: int): Pool
    requires i < |p|
  {
    p[i := p[i].(size := p[i].size + d)]
  }

  // `j` and everything it points at are in the pool.
  predicate InPool(p: Pool, j: nat) {
    && j < |p|
    && p[j].left < |p| && p[j].right < |p| && p[j].up < |p| && p[j].down < |p| && p[j].col < |p|
  }

  // No link leaves the pool.
  ghost predicate Closed(p: Pool) {
    forall i :: 0 <= i < |p| ==> InPool(p, i)
  }

  // `j` is in a vertical ring: its neighbours point back at it.
  ghost predicate Linked(p: Pool, j: nat) {
    && InPool(p, j)
    && p[p[j].down].up == j
    && p[p[j].up].down == j
  }

  // `c` is in a horizontal ring.
  ghost predicate HLinked(p: Pool, c: nat) {
    && InPool(p, c)
    && p[p[c].right].left == c
    && p[p[c].left].right == c
  }

  function Unlink(p: Pool, j: nat): Pool
    requires InPool(p, j)
  {
    var p1 := SetUp(p, p[j].down, p[j].up);
    var p2 := SetDown(p1, p1[j].up, p1[j].down);
    AddSize(p2, p2[j].col, -1)
  }

  function Relink(p: Pool, j: nat): Pool
    requires InPool(p, j)
  {
    var p1 := AddSize(p, p[j].col, 1);
    var p2 := SetUp(p1, p1[j].down, j);
    SetDown(p2, p2[j].up, j)
  }

  function HUnlink(p: Pool, c: nat): Pool
    requires InPool(p, c)
  {
    var p1 := SetLeft(p, p[c].right, p[c].left);
    SetRight(p1, p1[c].left, p1[c].right)
  }

  function HRelink(p: Pool, c: nat): Pool
    requires InPool(p, c)
  {
    var p1 := SetLeft(p, p[c].right, c);
    SetRight(p1, p1[c].left, c)
  }

  // What `Unlink` and `Relink` never touch.
  ghost predicate SameStatic(p: Pool, p': Pool) {
    && |p| == |p'|
    && forall i :: 0 <= i < |p| ==>
      && p'[i].left == p[i].left && p'[i].right == p[i].right
      && p'[i].col == p[i].col && p'[i].name == p[i].name
  }

  lemma UnlinkKeepsOwnLinks(p: Pool, j: nat)
    requires Linked(p, j)
    ensures SameStatic(p, Unlink(p, j))
    ensures Closed(p) ==> Closed(Unlink(p, j))
    ensures Unlink(p, j)[j].up == p[j].up && Unlink(p, j)[j].down == p[j].down
  {
    if Closed(p) {
      forall i | 0 <= i < |p| ensures InPool(Unlink(p, j), i) {
        assert InPool(p, i);
      }
    }
  }

  // Putting a removed node back restores every link and every size.
  lemma RelinkUndoesUnlink(p: Pool, j: nat)
    requires Linked(p, j)
    ensures |Unlink(p, j)| == |p| && Unlink(p, j)[j].up == p[j].up
    ensures Unlink(p, j)[j].down == p[j].down && Unlink(p, j)[j].col == p[j].col
    ensures Relink(Unlink(p, j), j) == p
  {
    var q := Unlink(p, j);
    UnlinkKeepsOwnLinks(p, j);
    var r := Relink(q, j);
    forall i | 0 <= i < |p| ensures r[i] == p[i] {
    }
  }

  lemma HRelinkUndoesHUnlink(p: Pool, c: nat)
    requires HLinked(p, c)
    ensures |HUnlink(p, c)| == |p|
    ensures HUnlink(p, c)[c].left == p[c].left && HUnlink(p, c)[c].right == p[c].right
    ensures HRelink(HUnlink(p, c), c) == p
  {
    var r := HRelink(HUnlink(p, c), c);
    forall i | 0 <= i < |p| ensures r[i] == p[i] {
    }
  }

  // ---------- Rings ----------

  ghost predicate Distinct(s: seq<nat>) {
    forall i, j :: 0 <= i < j < |s| ==> s[i] != s[j]
  }

  // h -> ns[0] -> ... -> ns[last] -> h along `down`, and back along `up`.
  ghost predicate VRing(p: Pool, h: nat, ns: seq<nat>) {
    && (forall i :: 0 <= i <= |ns| ==> ([h] + ns)[i] < |p|)
    && forall i :: 0 <= i <= |ns| ==>
      && p[([h] + ns)[i]].down == (ns + [h])[i]
      && (ns + [h])[i] < |p|
      && p[(ns + [h])[i]].up == ([h] + ns)[i]
  }

  // The same along `right` and `left`.
  ghost predicate HRing(p: Pool, h: nat, ns: seq<nat>) {
    && (forall i :: 0 <= i <= |ns| ==> ([h] + ns)[i] < |p|)
    && forall i :: 0 <= i <= |ns| ==>
      && p[([h] + ns)[i]].right == (ns + [h])[i]
      && (ns + [h])[i] < |p|
      && p[(ns + [h])[i]].left == ([h] + ns)[i]
  }

  lemma VRingRemove(p: Pool, h: nat, ns: seq<nat>, k: nat)
    requires VRing(p, h, ns) && Distinct([h] + ns) && k < |ns|
    requires Closed(p) && ns[k] < |p|
    ensures Linked(p, ns[k])
    ensures VRing(Unlink(p, ns[k]), h, RemoveAt(ns, k))
  {
    var j := ns[k];
    var a, b := [h] + ns, ns + [h];
    assert a[k + 1] == j && b[k] == j;
    assert p[j].down == b[k + 1] && p[j].up == a[k];
    var p' := Unlink(p, j);
    var ns' := RemoveAt(ns, k);
    var a', b' := [h] + ns', ns' + [h];
    forall i | 0 <= i <= |ns'|
      ensures a'[i] < |p'| && b'[i] < |p'| && p'[a'[i]].down == b'[i] && p'[b'[i]].up == a'[i]
    {
      var ia := if i <= k then i else i + 1;
      var ib := if i < k then i else i + 1;
      assert a'[i] == a[ia] && b'[i] == b[ib];
      assert ia != k ==> a[ia] != a[k];
      assert ib != k + 1 ==> b[ib] != b[k + 1];
    }
  }

  lemma HRingRemove(p: Pool, h: nat, ns: seq<nat>, k: nat)
    requires HRing(p, h, ns) && Distinct([h] + ns) && k < |ns|
    requires Closed(p) && ns[k] < |p|
    ensures HLinked(p, ns[k])
    ensures HRing(HUnlink(p, ns[k]), h, RemoveAt(ns, k))
  {
    var j := ns[k];
    var a, b := [h] + ns, ns + [h];
    assert a[k + 1] == j && b[k] == j;
    assert p[j].right == b[k + 1] && p[j].left == a[k];
    var p' := HUnlink(p, j);
    var ns' := RemoveAt(ns, k);
    var a', b' := [h] + ns', ns' + [h];
    forall i | 0 <= i <= |ns'|
      ensures a'[i] < |p'| && b'[i] < |p'| && p'[a'[i]].right == b'[i] && p'[b'[i]].left == a'[i]
    {
      var ia := if i <= k then i else i + 1;
      var ib := if i < k then i else i + 1;
      assert a'[i] == a[ia] && b'[i] == b[ib];
      assert ia != k ==> a[ia] != a[k];
      assert ib != k + 1 ==> b[ib] != b[k + 1];
    }
  }

  // ---------- The matrix and the view of a pool ----------

  // The fixed part: column headers, the column and the name of every row node, and for every row node
  // the other nodes of its row in `right` order.
  datatype Matrix = Matrix(cols: set<nat>, col: map<nat, nat>, name: map<nat, int>, others: map<nat, seq<nat>>)

  // The changing part: which headers are linked, and which nodes are linked below each header.
  datatype View = View(root: nat, headers: seq<nat>, lists: map<nat, seq<nat>>)

  ghost predicate Typed(m: Matrix) {
    && m.col.Keys == m.others.Keys && m.name.Keys == m.others.Keys
    && forall n :: n in m.others ==> n !in m.cols && m.col[n] in m.cols
  }

  ghost predicate ValidMatrix(m: Matrix) {
    && Typed(m)
    && (forall n, x :: n in m.others && x in m.others[n] ==>
      x in m.others && x != n && m.col[x] != m.col[n] && RowNodes(m, x) == RowNodes(m, n))
    && forall n :: n in m.others ==> DistinctCols(m, m.others[n])
  }

  ghost predicate DistinctCols(m: Matrix, s: seq<nat>) {
    && (forall i :: 0 <= i < |s| ==> s[i] in m.col)
    && forall i, j :: 0 <= i < j < |s| ==> m.col[s[i]] != m.col[s[j]]
  }

  function RowNodes(m: Matrix, n: nat): set<nat>
    requires n in m.others
  {
    {n} + set x | x in m.others[n]
  }

  // The columns a row covers.
  ghost function RowCols(m: Matrix, n: nat): set<nat>
    requires n in m.others
  {
    set x | x in RowNodes(m, n) && x in m.col :: m.col[x]
  }

  ghost function Elements(s: seq<nat>): set<nat> {
    set x | x in s
  }

  ghost function Live(v: View): set<nat> {
    Elements(v.headers)
  }

  // Rows do not move.
  ghost predicate RowRings(m: Matrix, p: Pool)
    requires Typed(m)
  {
    && (forall n :: n in m.others ==>
      n < |p| && HRing(p, n, m.others[n]) && p[n].col == m.col[n] && p[n].name == m.name[n])
    && forall c :: c in m.cols ==> c < |p| && p[c].col == c
  }

  ghost predicate ValidLists(m: Matrix, v: View)
    requires Typed(m)
  {
    && v.root !in m.cols && v.root !in m.others
    && v.lists.Keys == m.cols
    && Distinct([v.root] + v.headers)
    && (forall c :: c in v.headers ==> c in m.cols)
    && (forall c :: c in v.lists ==> Distinct([c] + v.lists[c]))
    && forall c, n :: c in v.lists && n in v.lists[c] ==> n in m.others && m.col[n] == c
  }

  ghost predicate ColumnRings(p: Pool, v: View) {
    forall c :: c in v.lists ==> c < |p| && VRing(p, c, v.lists[c]) && p[c].size == |v.lists[c]|
  }

  // Node `n` is in its column's list.
  ghost predicate Active(m: Matrix, v: View, n: nat) {
    n in m.col && m.col[n] in v.lists && n in v.lists[m.col[n]]
  }

  // In a live column exactly the rows all of whose columns are live are linked.
  ghost predicate Faithful(m: Matrix, v: View)
    requires ValidMatrix(m)
  {
    forall n :: n in m.others && m.col[n] in v.headers ==> (Active(m, v, n) <==> RowCols(m, n) <= Live(v))
  }

  // The pool links exactly what the view says; this also holds halfway through a cover.
  ghost predicate Consistent(m: Matrix, p: Pool, v: View) {
    && Closed(p)
    && ValidMatrix(m) && ValidLists(m, v) && RowRings(m, p) && ColumnRings(p, v)
    && HRing(p, v.root, v.headers)
  }

  ghost predicate Good(m: Matrix, p: Pool, v: View) {
    Consistent(m, p, v) && Faithful(m, v)
  }


  ghost function IndexOf(s: seq<nat>, x: nat): (k: nat)
    requires x in s
    ensures k < |s| && s[k] == x
  {
    var k :| 0 <= k < |s| && s[k] == x;
    k
  }

  ghost function Without(s: seq<nat>, x: nat): seq<nat> {
    if x in s then RemoveAt(s, IndexOf(s, x)) else s
  }

  lemma WithoutMembers(h: nat, s: seq<nat>, x: nat)
    requires Distinct([h] + s)
    ensures Distinct([h] + Without(s, x))
    ensures forall y :: y in Without(s, x) <==> y in s && y != x
  {
    hide Distinct;
    if x in s {
      var k := IndexOf(s, x);
      var t := Without(s, x);
      RemovedDistinct(h, s, k);
      forall y | y in s && y != x ensures y in t {
        var i := IndexOf(s, y);
        if i < k { assert t[i] == y; } else { assert t[i - 1] == y; }
      }
      forall y | y in t ensures y in s && y != x {
        var i := IndexOf(t, y);
        DistinctAt([h] + s, k + 1, if i < k then i + 1 else i + 2);
        if i < k { assert ([h] + s)[i + 1] == y == s[i]; } else { assert ([h] + s)[i + 2] == y == s[i + 1]; }
      }
    }
  }

  lemma DistinctAt(s: seq<nat>, i: nat, j: nat)
    requires Distinct(s) && i < |s| && j < |s| && i != j
    ensures s[i] != s[j]
  {
  }

  lemma RemovedDistinct(h: nat, s: seq<nat>, k: nat)
    requires Distinct([h] + s) && k < |s|
    ensures Distinct([h] + RemoveAt(s, k))
  {
    var t := RemoveAt(s, k);
    forall i, j | 0 <= i < j < |[h] + t| ensures ([h] + t)[i] != ([h] + t)[j] {
      var f := (i: int) => if i <= k then i else i + 1;
      assert ([h] + t)[i] == ([h] + s)[f(i)] && ([h] + t)[j] == ([h] + s)[f(j)];
    }
  }

  ghost function DropNode(m: Matrix, v: View, j: nat): View
    requires j in m.col && m.col[j] in v.lists
  {
    v.(lists := v.lists[m.col[j] := Without(v.lists[m.col[j]], j)])
  }

  lemma RowRingsKept(m: Matrix, p: Pool, p': Pool)
    requires ValidMatrix(m) && RowRings(m, p) && SameStatic(p, p')
    ensures RowRings(m, p')
  {
    forall n | n in m.others ensures HRing(p', n, m.others[n]) {
      StaticRingKept(p, p', n, m.others[n]);
    }
  }

  lemma StaticRingKept(p: Pool, p': Pool, h: nat, ns: seq<nat>)
    requires HRing(p, h, ns) && SameStatic(p, p')
    ensures HRing(p', h, ns)
  {
    HRingKept(p, p', h, ns);
  }

  lemma HRingKept(p: Pool, p': Pool, h: nat, ns: seq<nat>)
    requires HRing(p, h, ns) && |p| == |p'|
    requires forall i :: 0 <= i <= |ns| ==>
      && p'[([h] + ns)[i]].right == p[([h] + ns)[i]].right
      && p'[([h] + ns)[i]].left == p[([h] + ns)[i]].left
    ensures HRing(p', h, ns)
  {
    var a, b := [h] + ns, ns + [h];
    forall i | 0 <= i <= |ns| ensures p'[a[i]].right == b[i] && b[i] < |p'| && p'[b[i]].left == a[i] {
      assert b[i] == a[if i == |ns| then 0 else i + 1];
    }
  }

  lemma VRingKept(p: Pool, p': Pool, h: nat, ns: seq<nat>)
    requires VRing(p, h, ns) && |p| == |p'|
    requires forall i :: 0 <= i <= |ns| ==>
      && p'[([h] + ns)[i]].up == p[([h] + ns)[i]].up
      && p'[([h] + ns)[i]].down == p[([h] + ns)[i]].down
    ensures VRing(p', h, ns)
  {
    var a, b := [h] + ns, ns + [h];
    forall i | 0 <= i <= |ns| ensures p'[a[i]].down == b[i] && b[i] < |p'| && p'[b[i]].up == a[i] {
      assert b[i] == a[if i == |ns| then 0 else i + 1];
    }
  }

  lemma RingColumn(m: Matrix, p: Pool, v: View, c: nat, i: nat)
    requires Consistent(m, p, v) && c in v.lists && i <= |v.lists[c]|
    ensures ([c] + v.lists[c])[i] < |p| && p[([c] + v.lists[c])[i]].col == c
  {
    if i > 0 {
      assert v.lists[c][i - 1] in v.lists[c];
    }
  }

  // The neighbours of a linked node are in its own column.
  lemma NeighbourColumns(m: Matrix, p: Pool, v: View, j: nat)
    requires Consistent(m, p, v) && j in m.others && Active(m, v, j)
    ensures j < |p| && p[j].up < |p| && p[j].down < |p|
    ensures p[p[j].up].col == m.col[j] && p[p[j].down].col == m.col[j] && p[j].col == m.col[j]
  {
    hide ValidMatrix, HRing;
    var d := m.col[j];
    var ns := v.lists[d];
    var k := IndexOf(ns, j);
    assert ([d] + ns)[k + 1] == j && (ns + [d])[k] == j;
    RingColumn(m, p, v, d, k);
    RingColumn(m, p, v, d, if k + 1 == |ns| then 0 else k + 2);
    assert (ns + [d])[k + 1] == ([d] + ns)[if k + 1 == |ns| then 0 else k + 2];
  }

  lemma UnlinkSides(p: Pool, j: nat, i: nat)
    requires Linked(p, j) && i < |p| && i != p[j].up && i != p[j].down
    ensures |Unlink(p, j)| == |p| && Unlink(p, j)[i].up == p[i].up && Unlink(p, j)[i].down == p[i].down
    ensures i != p[j].col ==> Unlink(p, j)[i].size == p[i].size
  {
  }

  lemma UnlinkOtherColumn(m: Matrix, p: Pool, v: View, j: nat, c: nat)
    requires Consistent(m, p, v) && j in m.others && Active(m, v, j)
    requires c in v.lists && c != m.col[j]
    requires Linked(p, j)
    ensures VRing(Unlink(p, j), c, v.lists[c]) && Unlink(p, j)[c].size == p[c].size
  {
    hide ValidMatrix, ValidLists, RowRings, HRing, VRing, Unlink, Active, Linked;
    NeighbourColumns(m, p, v, j);
    var ns := [c] + v.lists[c];
    forall i | 0 <= i <= |v.lists[c]|
      ensures ns[i] < |p| && |Unlink(p, j)| == |p|
      ensures Unlink(p, j)[ns[i]].up == p[ns[i]].up && Unlink(p, j)[ns[i]].down == p[ns[i]].down
    {
      RingColumn(m, p, v, c, i);
      UnlinkSides(p, j, ns[i]);
    }
    assert ns[0] == c;
    RingColumn(m, p, v, c, 0);
    UnlinkSides(p, j, c);
    VRingKept(p, Unlink(p, j), c, v.lists[c]);
  }

  lemma DropNodeLists(m: Matrix, v: View, j: nat)
    requires Typed(m) && ValidLists(m, v) && j in m.others && m.col[j] in v.lists
    ensures ValidLists(m, DropNode(m, v, j))
    ensures DropNode(m, v, j).root == v.root && DropNode(m, v, j).headers == v.headers
    ensures forall n :: Active(m, DropNode(m, v, j), n) <==> Active(m, v, n) && n != j
  {
    hide Distinct, Without;
    WithoutMembers(m.col[j], v.lists[m.col[j]], j);
  }

  lemma UnlinkOwnColumn(m: Matrix, p: Pool, v: View, j: nat)
    requires Consistent(m, p, v) && j in m.others && Active(m, v, j)
    ensures Linked(p, j)
    ensures
      var d, p' := m.col[j], Unlink(p, j);
      var ns := DropNode(m, v, j).lists[d];
      VRing(p', d, ns) && p'[d].size == |ns|
  {
    var d := m.col[j];
    NeighbourColumns(m, p, v, j);
    VRingRemove(p, d, v.lists[d], IndexOf(v.lists[d], j));
  }

  lemma UnlinkColumns(m: Matrix, p: Pool, v: View, j: nat)
    requires Consistent(m, p, v) && j in m.others && Active(m, v, j)
    ensures Linked(p, j)
    ensures ColumnRings(Unlink(p, j), DropNode(m, v, j))
  {
    hide ValidMatrix, RowRings, HRing, VRing;
    UnlinkOwnColumn(m, p, v, j);
    var p', v' := Unlink(p, j), DropNode(m, v, j);
    forall c | c in v'.lists
      ensures c < |p'| && VRing(p', c, v'.lists[c]) && p'[c].size == |v'.lists[c]|
    {
      if c != m.col[j] {
        UnlinkOtherColumn(m, p, v, j, c);
      }
    }
  }

  lemma UnlinkStep(m: Matrix, p: Pool, v: View, j: nat)
    requires Consistent(m, p, v) && j in m.others && Active(m, v, j)
    ensures Linked(p, j)
    ensures Consistent(m, Unlink(p, j), DropNode(m, v, j))
  {
    assert Typed(m) && m.col[j] in v.lists;
    hide ValidMatrix, ValidLists, RowRings, ColumnRings, Unlink, DropNode, Active, HRing, SameStatic;
    UnlinkColumns(m, p, v, j);
    UnlinkKeepsOwnLinks(p, j);
    DropNodeLists(m, v, j);
    RowRingsKept(m, p, Unlink(p, j));
    StaticRingKept(p, Unlink(p, j), v.root, v.headers);
  }

  // ---------- Covering a column ----------

  ghost function UnlinkAll(p: Pool, js: seq<nat>): Pool {
    if js == [] then p else
    var q, j := UnlinkAll(p, js[..|js| - 1]), js[|js| - 1];
    if InPool(q, j) then Unlink(q, j) else q
  }

  ghost function DropAll(m: Matrix, v: View, js: seq<nat>): View {
    if js == [] then v else
    var w, j := DropAll(m, v, js[..|js| - 1]), js[|js| - 1];
    if j in m.col && m.col[j] in w.lists then DropNode(m, w, j) else w
  }

  // The rows that `js` come from can all be unlinked now.
  ghost predicate Removable(m: Matrix, v: View, js: seq<nat>) {
    && (forall i :: 0 <= i < |js| ==> js[i] in m.others && Active(m, v, js[i]))
    && Distinct(js)
  }

  lemma {:induction false} DropAllMembers(m: Matrix, v: View, js: seq<nat>)
    requires Typed(m) && ValidLists(m, v) && Removable(m, v, js)
    ensures ValidLists(m, DropAll(m, v, js))
    ensures DropAll(m, v, js).root == v.root && DropAll(m, v, js).headers == v.headers
    ensures forall n :: Active(m, DropAll(m, v, js), n) <==> Active(m, v, n) && n !in js
  {
    hide ValidLists;
    if js != [] {
      var init, j := js[..|js| - 1], js[|js| - 1];
      assert js == init + [j];
      DropAllMembers(m, v, init);
      DropNodeLists(m, DropAll(m, v, init), j);
    }
  }

  lemma {:induction false} UnlinkAllConsistent(m: Matrix, p: Pool, v: View, js: seq<nat>)
    requires Consistent(m, p, v) && Removable(m, v, js)
    ensures Consistent(m, UnlinkAll(p, js), DropAll(m, v, js))
    ensures |js| > 0 ==> Linked(UnlinkAll(p, js[..|js| - 1]), js[|js| - 1])
  {
    assert Typed(m);
    hide ValidMatrix, ValidLists, RowRings, ColumnRings, HRing, DropNode, Unlink;
    if js != [] {
      var init, j := js[..|js| - 1], js[|js| - 1];
      UnlinkAllConsistent(m, p, v, init);
      DropAllMembers(m, v, init);
      UnlinkStep(m, UnlinkAll(p, init), DropAll(m, v, init), j);
    }
  }

  // Lists of columns that `js` does not meet stay as they were.
  lemma {:induction false} DropAllUntouched(m: Matrix, v: View, js: seq<nat>, c: nat)
    requires c in v.lists
    requires forall j :: j in js ==> j in m.col && m.col[j] != c
    ensures c in DropAll(m, v, js).lists && DropAll(m, v, js).lists[c] == v.lists[c]
  {
    if js != [] {
      DropAllUntouched(m, v, js[..|js| - 1], c);
    }
  }

  ghost function Others(m: Matrix, n: nat): seq<nat> {
    if n in m.others then m.others[n] else []
  }

  ghost function UnlinkRows(m: Matrix, p: Pool, rows: seq<nat>): Pool {
    if rows == [] then p else
    UnlinkAll(UnlinkRows(m, p, rows[..|rows| - 1]), Others(m, rows[|rows| - 1]))
  }

  ghost function DropRows(m: Matrix, v: View, rows: seq<nat>): View {
    if rows == [] then v else
    DropAll(m, DropRows(m, v, rows[..|rows| - 1]), Others(m, rows[|rows| - 1]))
  }

  // `rows` are distinct nodes of one column and the rest of each of their rows is linked.
  ghost predicate RowsReady(m: Matrix, v: View, rows: seq<nat>, c: nat)
    requires ValidMatrix(m)
  {
    && c in m.cols
    && Distinct(rows)
    && (forall r :: r in rows ==> r in m.others && m.col[r] == c)
    && forall r, x :: r in rows && x in m.others[r] ==> Active(m, v, x)
  }

  ghost predicate InRows(m: Matrix, rows: seq<nat>, x: nat) {
    exists r :: r in rows && x in Others(m, r)
  }

  lemma RowsDisjoint(m: Matrix, r1: nat, r2: nat, x: nat)
    requires ValidMatrix(m) && r1 in m.others && r2 in m.others
    requires m.col[r1] == m.col[r2] && x in m.others[r1] && x in m.others[r2]
    ensures r1 == r2
  {
    assert RowNodes(m, r1) == RowNodes(m, x) == RowNodes(m, r2);
    assert r1 in RowNodes(m, r2);
  }

  lemma InRowsSnoc(m: Matrix, rows: seq<nat>, x: nat)
    requires rows != []
    ensures InRows(m, rows, x) <==> InRows(m, rows[..|rows| - 1], x) || x in Others(m, rows[|rows| - 1])
  {
    var init, r := rows[..|rows| - 1], rows[|rows| - 1];
    assert rows == init + [r];
    if x in Others(m, r) {
      assert r in rows;
    }
    if InRows(m, init, x) {
      var y :| y in init && x in Others(m, y);
      assert y in rows;
    }
  }

  // Unlinking the rest of the rows of column `c` leaves the list of `c` itself alone.
  lemma {:induction false} DropRowsUntouched(m: Matrix, v: View, rows: seq<nat>, c: nat)
    requires ValidMatrix(m) && c in v.lists
    requires forall i :: 0 <= i < |rows| ==> rows[i] in m.others && m.col[rows[i]] == c
    ensures c in DropRows(m, v, rows).lists && DropRows(m, v, rows).lists[c] == v.lists[c]
  {
    hide ValidMatrix, DropAll;
    if rows != [] {
      var init, r := rows[..|rows| - 1], rows[|rows| - 1];
      DropRowsUntouched(m, v, init, c);
      OthersApart(m, r, c);
      DropAllUntouched(m, DropRows(m, v, init), m.others[r], c);
    }
  }

  lemma {:induction false} DropRowsMembers(m: Matrix, v: View, rows: seq<nat>, c: nat)
    requires ValidMatrix(m) && ValidLists(m, v) && RowsReady(m, v, rows, c)
    ensures ValidLists(m, DropRows(m, v, rows))
    ensures DropRows(m, v, rows).root == v.root && DropRows(m, v, rows).headers == v.headers
    ensures forall n :: Active(m, DropRows(m, v, rows), n) <==> Active(m, v, n) && !InRows(m, rows, n)
  {
    assert Typed(m);
    hide ValidMatrix, ValidLists, Active, DropNode;
    if rows != [] {
      var init, r := rows[..|rows| - 1], rows[|rows| - 1];
      assert rows == init + [r];
      DropRowsMembers(m, v, init, c);
      RowRemovable(m, v, rows, c);
      DropAllMembers(m, DropRows(m, v, init), Others(m, r));
      forall x ensures InRows(m, rows, x) <==> InRows(m, init, x) || x in Others(m, r) {
        InRowsSnoc(m, rows, x);
      }
    }
  }

  lemma {:induction false} UnlinkRowsConsistent(m: Matrix, p: Pool, v: View, rows: seq<nat>, c: nat)
    requires Consistent(m, p, v) && RowsReady(m, v, rows, c)
    ensures Consistent(m, UnlinkRows(m, p, rows), DropRows(m, v, rows))
  {
    hide ValidLists, RowRings, ColumnRings, HRing, Active;
    if rows != [] {
      var init, r := rows[..|rows| - 1], rows[|rows| - 1];
      assert rows == init + [r];
      UnlinkRowsConsistent(m, p, v, init, c);
      DropRowsMembers(m, v, init, c);
      RowRemovable(m, v, rows, c);
      UnlinkAllConsistent(m, UnlinkRows(m, p, init), DropRows(m, v, init), Others(m, r));
    }
  }

  lemma OthersDistinct(m: Matrix, r: nat)
    requires ValidMatrix(m) && r in m.others
    ensures Distinct(m.others[r])
  {
    assert DistinctCols(m, m.others[r]);
  }

  lemma NotInEarlierRow(m: Matrix, v: View, rows: seq<nat>, c: nat, x: nat)
    requires ValidMatrix(m) && RowsReady(m, v, rows, c) && rows != []
    requires x in m.others[rows[|rows| - 1]]
    ensures !InRows(m, rows[..|rows| - 1], x)
  {
    var init, r := rows[..|rows| - 1], rows[|rows| - 1];
    if InRows(m, init, x) {
      var i :| 0 <= i < |init| && x in Others(m, init[i]);
      assert rows[i] == init[i];
      RowsDisjoint(m, rows[i], r, x);
      assert false;
    }
  }

  // The next row is still linked after the rows before it were unlinked.
  lemma RowRemovable(m: Matrix, v: View, rows: seq<nat>, c: nat)
    requires ValidMatrix(m) && RowsReady(m, v, rows, c) && rows != []
    requires
      var w := DropRows(m, v, rows[..|rows| - 1]);
      forall n :: Active(m, w, n) <==> Active(m, v, n) && !InRows(m, rows[..|rows| - 1], n)
    ensures Removable(m, DropRows(m, v, rows[..|rows| - 1]), Others(m, rows[|rows| - 1]))
  {
    var r := rows[|rows| - 1];
    assert r in rows;
    var js := m.others[r];
    forall i | 0 <= i < |js| ensures js[i] in m.others && Active(m, DropRows(m, v, rows[..|rows| - 1]), js[i]) {
      NotInEarlierRow(m, v, rows, c, js[i]);
    }
    OthersDistinct(m, r);
  }

  ghost function Cover(m: Matrix, p: Pool, v: View, c: nat): Pool
    requires c in v.lists
  {
    UnlinkRows(m, if InPool(p, c) then HUnlink(p, c) else p, v.lists[c])
  }

  ghost function CoverView(m: Matrix, v: View, c: nat): View
    requires c in v.lists
  {
    DropRows(m, v.(headers := Without(v.headers, c)), v.lists[c])
  }

  ghost function DropHeader(v: View, c: nat): View {
    v.(headers := Without(v.headers, c))
  }

  lemma HeaderNeighbours(m: Matrix, p: Pool, v: View, c: nat)
    requires Consistent(m, p, v) && c in v.headers
    ensures c < |p| && HLinked(p, c)
    ensures p[c].left !in m.others && p[c].right !in m.others
  {
    var k := IndexOf(v.headers, c);
    HRingRemove(p, v.root, v.headers, k);
    assert ([v.root] + v.headers)[k + 1] == c && (v.headers + [v.root])[k] == c;
    assert p[c].left == ([v.root] + v.headers)[k] && p[c].right == (v.headers + [v.root])[k + 1];
    assert k > 0 ==> v.headers[k - 1] in v.headers;
    assert k + 1 < |v.headers| ==> v.headers[k + 1] in v.headers;
  }

  lemma HUnlinkStatic(p: Pool, c: nat)
    requires Closed(p) && c < |p|
    ensures InPool(p, c) && Closed(HUnlink(p, c)) && |HUnlink(p, c)| == |p|
    ensures forall i :: 0 <= i < |p| ==>
      && HUnlink(p, c)[i].up == p[i].up && HUnlink(p, c)[i].down == p[i].down
      && HUnlink(p, c)[i].col == p[i].col && HUnlink(p, c)[i].size == p[i].size
      && HUnlink(p, c)[i].name == p[i].name
  {
    assert InPool(p, c);
    forall i | 0 <= i < |p| ensures InPool(HUnlink(p, c), i) {
      assert InPool(p, i);
    }
  }

  lemma ColumnNodes(p: Pool, h: nat, ns: seq<nat>)
    requires VRing(p, h, ns)
    ensures forall i :: 0 <= i <= |ns| ==> ([h] + ns)[i] < |p|
  {
  }

  lemma HUnlinkKeepsColumns(m: Matrix, p: Pool, v: View, c: nat)
    requires Consistent(m, p, v) && c in v.headers && c < |p|
    ensures ColumnRings(HUnlink(p, c), v)
  {
    hide ValidMatrix, ValidLists, RowRings, HRing, VRing, HUnlink;
    HUnlinkStatic(p, c);
    forall d | d in v.lists ensures VRing(HUnlink(p, c), d, v.lists[d]) {
      ColumnNodes(p, d, v.lists[d]);
      VRingKept(p, HUnlink(p, c), d, v.lists[d]);
    }
  }

  lemma RowNodeAt(m: Matrix, n: nat, i: nat)
    requires ValidMatrix(m) && n in m.others && i <= |m.others[n]|
    ensures ([n] + m.others[n])[i] in m.others
  {
    if i > 0 {
      assert m.others[n][i - 1] in m.others[n];
    }
  }

  lemma HUnlinkSides(p: Pool, c: nat, i: nat)
    requires InPool(p, c) && i < |p| && i != p[c].left && i != p[c].right && |HUnlink(p, c)| == |p|
    ensures HUnlink(p, c)[i].left == p[i].left && HUnlink(p, c)[i].right == p[i].right
  {
  }

  lemma HUnlinkKeepsRow(m: Matrix, p: Pool, v: View, c: nat, n: nat)
    requires Consistent(m, p, v) && c in v.headers && c < |p| && n in m.others
    ensures HRing(HUnlink(p, c), n, m.others[n])
  {
    hide ColumnRings, ValidLists, HUnlink, DistinctCols;
    HUnlinkStatic(p, c);
    HeaderNeighbours(m, p, v, c);
    forall i | 0 <= i <= |m.others[n]|
      ensures HUnlink(p, c)[([n] + m.others[n])[i]].right == p[([n] + m.others[n])[i]].right
      ensures HUnlink(p, c)[([n] + m.others[n])[i]].left == p[([n] + m.others[n])[i]].left
    {
      RowNodeAt(m, n, i);
      HUnlinkSides(p, c, ([n] + m.others[n])[i]);
    }
    HRingKept(p, HUnlink(p, c), n, m.others[n]);
  }

  lemma HUnlinkKeepsRows(m: Matrix, p: Pool, v: View, c: nat)
    requires Consistent(m, p, v) && c in v.headers && c < |p|
    ensures RowRings(m, HUnlink(p, c))
  {
    hide ColumnRings, ValidLists, HUnlink, HRing, DistinctCols;
    HUnlinkStatic(p, c);
    forall n | n in m.others ensures HRing(HUnlink(p, c), n, m.others[n]) {
      HUnlinkKeepsRow(m, p, v, c, n);
    }
  }

  lemma HUnlinkStep(m: Matrix, p: Pool, v: View, c: nat)
    requires Consistent(m, p, v) && c in v.headers
    ensures c < |p| && HLinked(p, c)
    ensures Consistent(m, HUnlink(p, c), DropHeader(v, c))
    ensures Live(DropHeader(v, c)) == Live(v) - {c}
  {
    HeaderNeighbours(m, p, v, c);
    HUnlinkStatic(p, c);
    HUnlinkKeepsColumns(m, p, v, c);
    HUnlinkKeepsRows(m, p, v, c);
    HRingRemove(p, v.root, v.headers, IndexOf(v.headers, c));
    WithoutMembers(v.root, v.headers, c);
  }

  lemma SameRowSameCols(m: Matrix, n: nat, x: nat)
    requires ValidMatrix(m) && n in m.others && x in RowNodes(m, n)
    ensures x in m.others && RowCols(m, x) == RowCols(m, n) && n in RowNodes(m, x)
  {
  }

  lemma OwnColumn(m: Matrix, n: nat)
    requires ValidMatrix(m) && n in m.others
    ensures m.col[n] in RowCols(m, n)
  {
    assert n in RowNodes(m, n);
  }

  lemma FaithfulReady(m: Matrix, v: View, c: nat)
    requires ValidMatrix(m) && ValidLists(m, v) && Faithful(m, v) && c in v.headers
    ensures RowsReady(m, v, v.lists[c], c)
  {
    forall r, x | r in v.lists[c] && x in m.others[r] ensures Active(m, v, x) {
      assert Active(m, v, r);
      assert x in RowNodes(m, r);
      SameRowSameCols(m, r, x);
      OwnColumn(m, x);
    }
    var ns := v.lists[c];
    forall i, j | 0 <= i < j < |ns| ensures ns[i] != ns[j] {
      assert ([c] + ns)[i + 1] == ns[i] && ([c] + ns)[j + 1] == ns[j];
    }
  }

  // A row that was wholly live is hit by the cover of `c` exactly when `c` is one of its columns.
  lemma CoveredRows(m: Matrix, v: View, c: nat, n: nat)
    requires ValidMatrix(m) && ValidLists(m, v) && Faithful(m, v) && c in v.headers
    requires n in m.others && RowCols(m, n) <= Live(v) && m.col[n] != c
    ensures c in v.lists && (InRows(m, v.lists[c], n) <==> c in RowCols(m, n))
  {
    hide ValidMatrix, Faithful, RowCols, RowNodes, Live, Distinct;
    if InRows(m, v.lists[c], n) {
      HitRow(m, v, c, n);
    }
    if c in RowCols(m, n) {
      RowHit(m, v, c, n);
    }
  }

  lemma HitRow(m: Matrix, v: View, c: nat, n: nat)
    requires ValidMatrix(m) && ValidLists(m, v) && c in v.lists && InRows(m, v.lists[c], n)
    ensures c in RowCols(m, n)
  {
    hide Distinct, DistinctCols, RowCols;
    var r :| r in v.lists[c] && n in Others(m, r);
    assert n in RowNodes(m, r);
    SameRowSameCols(m, r, n);
    OwnColumn(m, r);
  }

  lemma RowHit(m: Matrix, v: View, c: nat, n: nat)
    requires ValidMatrix(m) && ValidLists(m, v) && Faithful(m, v) && c in v.headers
    requires n in m.others && RowCols(m, n) <= Live(v) && m.col[n] != c && c in RowCols(m, n)
    ensures c in v.lists && InRows(m, v.lists[c], n)
  {
    hide Distinct, DistinctCols, Live;
    var x :| x in RowNodes(m, n) && x in m.col && m.col[x] == c;
    SameRowSameCols(m, n, x);
    assert Active(m, v, x);
    assert n in Others(m, x);
  }

  lemma CoverFaithful(m: Matrix, v: View, c: nat)
    requires ValidMatrix(m) && ValidLists(m, v) && Faithful(m, v) && c in v.headers
    requires Live(DropHeader(v, c)) == Live(v) - {c}
    requires CoverView(m, v, c).headers == DropHeader(v, c).headers
    requires forall n :: Active(m, CoverView(m, v, c), n) <==> Active(m, v, n) && !InRows(m, v.lists[c], n)
    ensures Faithful(m, CoverView(m, v, c))
  {
    var w := CoverView(m, v, c);
    assert Live(w) == Live(v) - {c};
    forall n | n in m.others && m.col[n] in w.headers
      ensures Active(m, w, n) <==> RowCols(m, n) <= Live(w)
    {
      assert m.col[n] in Live(w);
      assert m.col[n] in v.headers && m.col[n] != c;
      if RowCols(m, n) <= Live(v) {
        CoveredRows(m, v, c, n);
      }
    }
  }

  lemma ReadyWithoutHeader(m: Matrix, v: View, c: nat)
    requires ValidMatrix(m) && c in v.lists && RowsReady(m, v, v.lists[c], c)
    ensures RowsReady(m, DropHeader(v, c), v.lists[c], c)
    ensures forall n :: Active(m, DropHeader(v, c), n) <==> Active(m, v, n)
  {
    assert forall n :: Active(m, DropHeader(v, c), n) <==> Active(m, v, n);
  }

  lemma CoverConsistent(m: Matrix, p: Pool, v: View, c: nat)
    requires Consistent(m, p, v) && c in v.headers && RowsReady(m, v, v.lists[c], c)
    ensures c < |p| && HLinked(p, c)
    ensures Consistent(m, Cover(m, p, v, c), CoverView(m, v, c))
    ensures CoverView(m, v, c).headers == DropHeader(v, c).headers && CoverView(m, v, c).root == v.root
    ensures forall n :: Active(m, CoverView(m, v, c), n) <==> Active(m, v, n) && !InRows(m, v.lists[c], n)
    ensures CoverView(m, v, c).lists[c] == v.lists[c]
  {
    var w := DropHeader(v, c);
    assert forall i :: 0 <= i < |v.lists[c]| ==> v.lists[c][i] in m.others && m.col[v.lists[c][i]] == c;
    hide ValidMatrix, RowRings, ColumnRings, HRing, RowsReady, Active, InRows, RemoveAt, IndexOf, HLinked;
    HUnlinkStep(m, p, v, c);
    ReadyWithoutHeader(m, v, c);
    UnlinkRowsConsistent(m, HUnlink(p, c), w, v.lists[c], c);
    DropRowsMembers(m, w, v.lists[c], c);
    DropRowsUntouched(m, w, v.lists[c], c);
  }

  // Covering a live column keeps the structure well formed, removes that column from the live ones and
  // leaves the column's own list in place.
  lemma CoverGood(m: Matrix, p: Pool, v: View, c: nat)
    requires Good(m, p, v) && c in v.headers
    ensures c < |p| && HLinked(p, c)
    ensures Good(m, Cover(m, p, v, c), CoverView(m, v, c))
    ensures Live(CoverView(m, v, c)) == Live(v) - {c}
    ensures CoverView(m, v, c).root == v.root && CoverView(m, v, c).lists[c] == v.lists[c]
  {
    hide RowRings, ColumnRings, HRing, RowsReady, Active, InRows, RemoveAt, IndexOf, HLinked, Faithful;
    FaithfulReady(m, v, c);
    CoverConsistent(m, p, v, c);
    WithoutMembers(v.root, v.headers, c);
    CoverFaithful(m, v, c);
  }

  // Covering several columns one after the other.
  ghost function CoverAllView(m: Matrix, v: View, cs: seq<nat>): View {
    if cs == [] then v else
    var w, c := CoverAllView(m, v, cs[..|cs| - 1]), cs[|cs| - 1];
    if c in w.lists then CoverView(m, w, c) else w
  }

  ghost function CoverAll(m: Matrix, p: Pool, v: View, cs: seq<nat>): Pool {
    if cs == [] then p else
    var q, w, c := CoverAll(m, p, v, cs[..|cs| - 1]), CoverAllView(m, v, cs[..|cs| - 1]), cs[|cs| - 1];
    if c in w.lists then Cover(m, q, w, c) else q
  }

  lemma {:induction false} CoverAllGood(m: Matrix, p: Pool, v: View, cs: seq<nat>)
    requires Good(m, p, v) && Distinct(cs) && forall i :: 0 <= i < |cs| ==> cs[i] in Live(v)
    ensures Good(m, CoverAll(m, p, v, cs), CoverAllView(m, v, cs))
    ensures CoverAllView(m, v, cs).root == v.root
    ensures Live(CoverAllView(m, v, cs)) == Live(v) - Elements(cs)
  {
    hide Good, Cover, CoverView, Live;
    if cs != [] {
      var init, c := cs[..|cs| - 1], cs[|cs| - 1];
      assert cs == init + [c];
      CoverAllGood(m, p, v, init);
      LiveColumn(m, CoverAll(m, p, v, init), CoverAllView(m, v, init), c);
      CoverGood(m, CoverAll(m, p, v, init), CoverAllView(m, v, init), c);
    }
  }

  lemma LiveColumn(m: Matrix, p: Pool, v: View, c: nat)
    requires Good(m, p, v) && c in Live(v)
    ensures c in v.headers && c in v.lists
  {
  }

  // ---------- Uncovering ----------

  // Relinks `js` from the last to the first.
  ghost function RelinkAll(p: Pool, js: seq<nat>): Pool
    decreases |js|
  {
    if js == [] then p else
    var j := js[|js| - 1];
    RelinkAll(if InPool(p, j) then Relink(p, j) else p, js[..|js| - 1])
  }

  ghost function RelinkRows(m: Matrix, p: Pool, rows: seq<nat>): Pool
    decreases |rows|
  {
    if rows == [] then p else
    RelinkRows(m, RelinkAll(p, Others(m, rows[|rows| - 1])), rows[..|rows| - 1])
  }

  ghost function Uncover(m: Matrix, p: Pool, v: View, c: nat): Pool
    requires c in v.lists
  {
    var q := RelinkRows(m, p, v.lists[c]);
    if InPool(q, c) then HRelink(q, c) else q
  }

  ghost function UncoverAll(m: Matrix, p: Pool, v: View, cs: seq<nat>): Pool
    decreases |cs|
  {
    if cs == [] then p else
    var w, c := CoverAllView(m, v, cs[..|cs| - 1]), cs[|cs| - 1];
    UncoverAll(m, if c in w.lists then Uncover(m, p, w, c) else p, v, cs[..|cs| - 1])
  }

  lemma {:induction false} RelinkAllUndoes(m: Matrix, p: Pool, v: View, js: seq<nat>)
    requires Consistent(m, p, v) && Removable(m, v, js)
    ensures RelinkAll(UnlinkAll(p, js), js) == p
  {
    hide Consistent, Removable, Linked, Unlink, Relink, InPool;
    if js != [] {
      var init, j := js[..|js| - 1], js[|js| - 1];
      UnlinkAllConsistent(m, p, v, js);
      RemovablePrefix(m, v, js, |js| - 1);
      RelinkAllUndoes(m, p, v, init);
      RelinkBack(UnlinkAll(p, init), j);
    }
  }

  lemma RemovablePrefix(m: Matrix, v: View, js: seq<nat>, k: nat)
    requires Removable(m, v, js) && k <= |js|
    ensures Removable(m, v, js[..k])
  {
  }

  lemma RelinkBack(p: Pool, j: nat)
    requires Linked(p, j)
    ensures InPool(p, j) && InPool(Unlink(p, j), j) && Relink(Unlink(p, j), j) == p
  {
    RelinkUndoesUnlink(p, j);
    UnlinkKeepsOwnLinks(p, j);
  }

  lemma {:induction false} RelinkRowsUndoes(m: Matrix, p: Pool, v: View, rows: seq<nat>, c: nat)
    requires Consistent(m, p, v) && RowsReady(m, v, rows, c)
    ensures RelinkRows(m, UnlinkRows(m, p, rows), rows) == p
  {
    if rows != [] {
      var init, r := rows[..|rows| - 1], rows[|rows| - 1];
      assert RowsReady(m, v, init, c);
      RelinkRowsUndoes(m, p, v, init, c);
      hide ValidMatrix, ValidLists, RowRings, ColumnRings, HRing, RowsReady, Removable;
      UnlinkRowsConsistent(m, p, v, init, c);
      DropRowsMembers(m, v, init, c);
      RowRemovable(m, v, rows, c);
      RelinkAllUndoes(m, UnlinkRows(m, p, init), DropRows(m, v, init), Others(m, r));
    }
  }

  // `uncover(c)` right after `cover(c)` restores every link and every size of the pool.
  lemma UncoverUndoesCover(m: Matrix, p: Pool, v: View, c: nat)
    requires Good(m, p, v) && c in v.headers
    ensures Uncover(m, Cover(m, p, v, c), v, c) == p
  {
    FaithfulReady(m, v, c);
    hide RowRings, ColumnRings, HRing, RowsReady, Removable, Faithful;
    HUnlinkStep(m, p, v, c);
    ReadyWithoutHeader(m, v, c);
    RelinkRowsUndoes(m, HUnlink(p, c), DropHeader(v, c), v.lists[c], c);
    assert InPool(HUnlink(p, c), c);
    HRelinkUndoesHUnlink(p, c);
  }

  // The same for any nesting: columns covered in turn and uncovered in the opposite order.
  lemma {:induction false} UncoverAllUndoesCoverAll(m: Matrix, p: Pool, v: View, cs: seq<nat>)
    requires Good(m, p, v) && Distinct(cs) && forall i :: 0 <= i < |cs| ==> cs[i] in Live(v)
    ensures UncoverAll(m, CoverAll(m, p, v, cs), v, cs) == p
  {
    if cs != [] {
      var init, c := cs[..|cs| - 1], cs[|cs| - 1];
      assert cs == init + [c];
      CoverAllGood(m, p, v, init);
      var w := CoverAllView(m, v, init);
      assert c in Live(w);
      assert c in w.headers && c in w.lists;
      hide Good, Consistent, Cover, Uncover;
      UncoverUndoesCover(m, CoverAll(m, p, v, init), w, c);
      UncoverAllUndoesCoverAll(m, p, v, init);
    }
  }

  // ---------- Walking the links while they change ----------

  // The pool in the middle of covering `c`: the header and the first `i` rows are done, and so are the
  // first `k` nodes of the next row.
  ghost function Midway(m: Matrix, p: Pool, v: View, c: nat, i: nat, k: nat): Pool
    requires c in v.lists && i < |v.lists[c]| && k <= |Others(m, v.lists[c][i])|
  {
    UnlinkAll(UnlinkRows(m, if InPool(p, c) then HUnlink(p, c) else p, v.lists[c][..i]),
              Others(m, v.lists[c][i])[..k])
  }

  ghost function MidwayView(m: Matrix, v: View, c: nat, i: nat, k: nat): View
    requires c in v.lists && i < |v.lists[c]| && k <= |Others(m, v.lists[c][i])|
  {
    DropAll(m, DropRows(m, DropHeader(v, c), v.lists[c][..i]), Others(m, v.lists[c][i])[..k])
  }

  lemma MidwayConsistent(m: Matrix, p: Pool, v: View, c: nat, i: nat, k: nat)
    requires Good(m, p, v) && c in v.headers && i < |v.lists[c]| && k <= |Others(m, v.lists[c][i])|
    ensures Consistent(m, Midway(m, p, v, c, i, k), MidwayView(m, v, c, i, k))
    ensures MidwayView(m, v, c, i, k).lists[c] == v.lists[c]
    ensures k < |Others(m, v.lists[c][i])| ==> Linked(Midway(m, p, v, c, i, k), Others(m, v.lists[c][i])[k])
  {
    hide RowRings, ColumnRings, HRing, RowsReady, Active, InRows, Removable, Linked, HLinked, Faithful;
    FaithfulReady(m, v, c);
    ReadyWithoutHeader(m, v, c);
    HUnlinkStep(m, p, v, c);
    MidwayRows(m, HUnlink(p, c), DropHeader(v, c), v.lists[c], c, i, k);
  }

  lemma MidwayRows(m: Matrix, p: Pool, v: View, rows: seq<nat>, c: nat, i: nat, k: nat)
    requires Consistent(m, p, v) && c in v.lists && RowsReady(m, v, rows, c)
    requires i < |rows| && k <= |Others(m, rows[i])|
    ensures Consistent(m, UnlinkAll(UnlinkRows(m, p, rows[..i]), Others(m, rows[i])[..k]),
                       DropAll(m, DropRows(m, v, rows[..i]), Others(m, rows[i])[..k]))
    ensures c in DropAll(m, DropRows(m, v, rows[..i]), Others(m, rows[i])[..k]).lists
    ensures DropAll(m, DropRows(m, v, rows[..i]), Others(m, rows[i])[..k]).lists[c] == v.lists[c]
    ensures k < |Others(m, rows[i])| ==>
      Linked(UnlinkAll(UnlinkRows(m, p, rows[..i]), Others(m, rows[i])[..k]), Others(m, rows[i])[k])
  {
    var o := Others(m, rows[i]);
    RowsUntouched(m, v, rows, c, i, k);
    hide ValidMatrix, ValidLists, RowRings, ColumnRings, HRing, RowsReady, Active, InRows, Removable, Linked;
    ReadyPrefix(m, v, rows, c, i);
    ReadyPrefix(m, v, rows, c, i + 1);
    assert rows[..i + 1][..i] == rows[..i] && rows[..i + 1][i] == rows[i];
    UnlinkRowsConsistent(m, p, v, rows[..i], c);
    DropRowsMembers(m, v, rows[..i], c);
    RowRemovable(m, v, rows[..i + 1], c);
    MidwayRow(m, UnlinkRows(m, p, rows[..i]), DropRows(m, v, rows[..i]), o, k);
  }

  lemma RowsUntouched(m: Matrix, v: View, rows: seq<nat>, c: nat, i: nat, k: nat)
    requires ValidMatrix(m) && c in v.lists && RowsReady(m, v, rows, c)
    requires i < |rows| && k <= |Others(m, rows[i])|
    ensures c in DropAll(m, DropRows(m, v, rows[..i]), Others(m, rows[i])[..k]).lists
    ensures DropAll(m, DropRows(m, v, rows[..i]), Others(m, rows[i])[..k]).lists[c] == v.lists[c]
  {
    hide RowNodes, DistinctCols, Distinct, Active, DropAll, DropRows;
    DropRowsUntouched(m, v, rows[..i], c);
    OthersApart(m, rows[i], c);
    DropAllUntouched(m, DropRows(m, v, rows[..i]), Others(m, rows[i])[..k], c);
  }

  lemma OthersApart(m: Matrix, r: nat, c: nat)
    requires ValidMatrix(m) && r in m.others && m.col[r] == c
    ensures forall j :: j in Others(m, r) ==> j in m.col && m.col[j] != c
  {
    hide RowNodes, DistinctCols;
  }

  lemma ReadyPrefix(m: Matrix, v: View, rows: seq<nat>, c: nat, i: nat)
    requires ValidMatrix(m) && RowsReady(m, v, rows, c) && i <= |rows|
    ensures RowsReady(m, v, rows[..i], c)
  {
    assert forall r :: r in rows[..i] ==> r in rows;
  }

  lemma MidwayRow(m: Matrix, p: Pool, v: View, js: seq<nat>, k: nat)
    requires Consistent(m, p, v) && Removable(m, v, js) && k <= |js|
    ensures Consistent(m, UnlinkAll(p, js[..k]), DropAll(m, v, js[..k]))
    ensures k < |js| ==> Linked(UnlinkAll(p, js[..k]), js[k])
  {
    hide Consistent, Removable, Linked, Unlink, InPool;
    RemovablePrefix(m, v, js, k);
    UnlinkAllConsistent(m, p, v, js[..k]);
    if k < |js| {
      RemovablePrefix(m, v, js, k + 1);
      UnlinkAllConsistent(m, p, v, js[..k + 1]);
      assert js[..k + 1][..k] == js[..k] && js[..k + 1][k] == js[k];
    }
  }

  lemma {:induction false} UnlinkAllLength(p: Pool, js: seq<nat>)
    ensures |UnlinkAll(p, js)| == |p|
  {
    if js != [] {
      UnlinkAllLength(p, js[..|js| - 1]);
    }
  }

  lemma {:induction false} UnlinkRowsLength(m: Matrix, p: Pool, rows: seq<nat>)
    ensures |UnlinkRows(m, p, rows)| == |p|
  {
    if rows != [] {
      UnlinkRowsLength(m, p, rows[..|rows| - 1]);
      UnlinkAllLength(UnlinkRows(m, p, rows[..|rows| - 1]), Others(m, rows[|rows| - 1]));
    }
  }

  // What a walk over the rows of `c`, in either direction, relies on while the pool changes under it.
  lemma MidwayWalk(m: Matrix, p: Pool, v: View, c: nat, i: nat, k: nat)
    requires Good(m, p, v) && c in v.headers && i < |v.lists[c]| && k <= |Others(m, v.lists[c][i])|
    ensures |Midway(m, p, v, c, i, k)| == |p| && Closed(Midway(m, p, v, c, i, k))
    ensures v.lists[c][i] in m.others && HRing(Midway(m, p, v, c, i, k), v.lists[c][i], m.others[v.lists[c][i]])
    ensures VRing(Midway(m, p, v, c, i, k), c, v.lists[c])
    ensures k < |Others(m, v.lists[c][i])| ==> Linked(Midway(m, p, v, c, i, k), Others(m, v.lists[c][i])[k])
  {
    MidwayConsistent(m, p, v, c, i, k);
    var w := MidwayView(m, v, c, i, k);
    assert v.lists[c][i] in v.lists[c];
    assert v.lists[c][i] in w.lists[c];
    hide Good, ValidLists, ValidMatrix, HRing, VRing, Linked;
    UnlinkRowsLength(m, if InPool(p, c) then HUnlink(p, c) else p, v.lists[c][..i]);
    UnlinkAllLength(UnlinkRows(m, if InPool(p, c) then HUnlink(p, c) else p, v.lists[c][..i]),
                    Others(m, v.lists[c][i])[..k]);
  }

  lemma MidwaySteps(m: Matrix, p: Pool, v: View, c: nat, i: nat, k: nat)
    requires c in v.lists && i < |v.lists[c]| && k <= |Others(m, v.lists[c][i])|
    ensures
      var p0 := if InPool(p, c) then HUnlink(p, c) else p;
      && Midway(m, p, v, c, i, 0) == UnlinkRows(m, p0, v.lists[c][..i])
      && Midway(m, p, v, c, i, |Others(m, v.lists[c][i])|) == UnlinkRows(m, p0, v.lists[c][..i + 1])
    ensures k < |Others(m, v.lists[c][i])| && Linked(Midway(m, p, v, c, i, k), Others(m, v.lists[c][i])[k]) ==>
      Midway(m, p, v, c, i, k + 1) == Unlink(Midway(m, p, v, c, i, k), Others(m, v.lists[c][i])[k])
  {
    var rows := v.lists[c];
    var o := Others(m, rows[i]);
    assert rows[..i + 1][..i] == rows[..i] && rows[..i + 1][i] == rows[i];
    assert o[..|o|] == o;
    if k < |o| {
      assert o[..k + 1][..k] == o[..k] && o[..k + 1][k] == o[k];
    }
  }
}
