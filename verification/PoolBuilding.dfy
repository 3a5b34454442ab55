/**
 Growing a pool: appending a column header, a row node, and closing four nodes into a row.
 */
module PoolBuilding {
  import opened DancingLinks

  function PutLeft(p: Pool, h: nat, x: nat): (r: Pool)
    requires h < |p| && x < |p| && p[h].left < |p|
  {
    var p1 := SetRight(SetLeft(p, x, p[h].left), x, h);
    var p2 := SetRight(p1, p[h].left, x);
    SetLeft(p2, h, x)
  }

  function PutUp(p: Pool, h: nat, x: nat): (r: Pool)
    requires h < |p| && x < |p| && p[h].up < |p|
  {
    var p1 := SetDown(SetUp(p, x, p[h].up), x, h);
    var p2 := SetDown(p1, p[h].up, x);
    var p3 := AddSize(SetUp(p2, h, x), h, 1);
    p3[x := p3[x].(col := h)]
  }

  // A node linked to itself only.
  function Alone(p: Pool, x: nat, col: nat, name: int): Pool
    requires x < |p|
  {
    p[x := Node(x, x, x, x, col, name, 0)]
  }

  // ---------- Rings ----------

  lemma HRingAppend(p: Pool, h: nat, ns: seq<nat>, x: nat)
    requires HRing(p, h, ns) && Distinct([h] + ns) && x < |p| && x !in [h] + ns
    ensures h < |p| && p[h].left < |p|
    ensures HRing(PutLeft(p, h, x), h, ns + [x])
  {
    var n := |ns|;
    var a, b := [h] + ns, ns + [h];
    assert a[0] == h && b[n] == h && p[h].left == a[n];
    var q := PutLeft(p, h, x);
    var a', b' := [h] + (ns + [x]), (ns + [x]) + [h];
    forall i | 0 <= i <= n + 1
      ensures a'[i] < |q| && b'[i] < |q| && q[a'[i]].right == b'[i] && q[b'[i]].left == a'[i]
    {
      if i < n {
        assert a'[i] == a[i] && b'[i] == b[i] && a[i] != a[n] && b[i] == a[i + 1] && a[i + 1] != a[0];
      }
    }
  }

  lemma VRingAppend(p: Pool, h: nat, ns: seq<nat>, x: nat)
    requires VRing(p, h, ns) && Distinct([h] + ns) && x < |p| && x !in [h] + ns
    ensures h < |p| && p[h].up < |p|
    ensures VRing(PutUp(p, h, x), h, ns + [x])
  {
    var n := |ns|;
    var a, b := [h] + ns, ns + [h];
    assert a[0] == h && b[n] == h && p[h].up == a[n];
    var q := PutUp(p, h, x);
    var a', b' := [h] + (ns + [x]), (ns + [x]) + [h];
    forall i | 0 <= i <= n + 1
      ensures a'[i] < |q| && b'[i] < |q| && q[a'[i]].down == b'[i] && q[b'[i]].up == a'[i]
    {
      if i < n {
        assert a'[i] == a[i] && b'[i] == b[i] && a[i] != a[n] && b[i] == a[i + 1] && a[i + 1] != a[0];
      }
    }
  }

  // A ring can be read from its second node on.
  lemma HRingRotate(p: Pool, h: nat, ns: seq<nat>)
    requires HRing(p, h, ns) && ns != []
    ensures HRing(p, ns[0], ns[1..] + [h])
  {
    var a, b := [h] + ns, ns + [h];
    var ms := ns[1..] + [h];
    forall i | 0 <= i <= |ms|
      ensures ([ns[0]] + ms)[i] < |p| && (ms + [ns[0]])[i] < |p|
      ensures p[([ns[0]] + ms)[i]].right == (ms + [ns[0]])[i] && p[(ms + [ns[0]])[i]].left == ([ns[0]] + ms)[i]
    {
      var k := if i == |ns| then 0 else i + 1;
      assert ([ns[0]] + ms)[i] == a[k];
      assert (ms + [ns[0]])[i] == b[k];
    }
  }

  // ---------- Full pools ----------

  // Every column is live and every row is linked: the state the constructor builds up.
  ghost predicate Full(m: Matrix, p: Pool, v: View) {
    Consistent(m, p, v) && Live(v) == m.cols && forall n :: n in m.others ==> Active(m, v, n)
  }

  ghost predicate UsedBelow(m: Matrix, v: View, k: nat) {
    && v.root < k
    && (forall c :: c in m.cols ==> c < k)
    && forall n :: n in m.others ==> n < k
  }

  lemma FullGood(m: Matrix, p: Pool, v: View)
    requires Full(m, p, v)
    ensures Good(m, p, v)
  {
  }

  lemma ConsistentTyped(m: Matrix, p: Pool, v: View)
    requires Consistent(m, p, v)
    ensures ValidMatrix(m) && Typed(m) && ValidLists(m, v)
  {
  }

  // `x` is another node of the row of `n`.
  ghost predicate RowPair(m: Matrix, n: nat, x: nat) {
    && n in m.others && x in m.others && x != n
    && n in m.col && x in m.col && m.col[x] != m.col[n] && RowNodes(m, x) == RowNodes(m, n)
  }

  lemma MatrixFromRows(m: Matrix)
    requires Typed(m)
    requires forall n, x :: n in m.others && x in m.others[n] ==> RowPair(m, n, x)
    requires forall n :: n in m.others ==> DistinctCols(m, m.others[n])
    ensures ValidMatrix(m)
  {
  }

  lemma RowsOfMatrix(m: Matrix, n: nat, x: nat)
    requires ValidMatrix(m) && n in m.others && x in m.others[n]
    ensures RowPair(m, n, x) && DistinctCols(m, m.others[n])
  {
  }

  // ---------- A new header ----------

  ghost function HeaderPool(p: Pool, root: nat, c: nat, name: int): Pool {
    if InPool(p, root) && c < |p| && root != c then PutLeft(Alone(p, c, c, name), root, c) else p
  }

  ghost function HeaderMatrix(m: Matrix, c: nat): Matrix {
    m.(cols := m.cols + {c})
  }

  ghost function HeaderView(v: View, c: nat): View {
    v.(headers := v.headers + [c], lists := v.lists[c := []])
  }

  lemma DistinctSnoc(s: seq<nat>, x: nat)
    requires Distinct(s) && x !in s
    ensures Distinct(s + [x])
  {
  }

  lemma HeaderMatrixValid(m: Matrix, c: nat)
    requires ValidMatrix(m) && c !in m.others
    ensures ValidMatrix(HeaderMatrix(m, c))
  {
    var m' := HeaderMatrix(m, c);
    forall n, x | n in m'.others && x in m'.others[n] ensures RowPair(m', n, x) {
      RowsOfMatrix(m, n, x);
    }
    forall n | n in m'.others ensures DistinctCols(m', m'.others[n]) {
      assert DistinctCols(m, m.others[n]);
    }
    MatrixFromRows(m');
  }

  lemma HeaderListsValid(m: Matrix, v: View, c: nat)
    requires Typed(m) && ValidLists(m, v) && UsedBelow(m, v, c)
    ensures ValidLists(HeaderMatrix(m, c), HeaderView(v, c))
  {
    var v' := HeaderView(v, c);
    DistinctSnoc([v.root] + v.headers, c);
    assert [v.root] + v'.headers == ([v.root] + v.headers) + [c];
  }

  lemma HeaderActive(m: Matrix, v: View, c: nat)
    requires Typed(m) && UsedBelow(m, v, c) && forall n :: n in m.others ==> Active(m, v, n)
    ensures forall n :: n in m.others ==> Active(HeaderMatrix(m, c), HeaderView(v, c), n)
    ensures Live(HeaderView(v, c)) == Live(v) + {c}
  {
    forall n | n in m.others ensures Active(HeaderMatrix(m, c), HeaderView(v, c), n) {
      assert Active(m, v, n);
    }
  }

  lemma HeaderClosed(p: Pool, root: nat, c: nat, name: int)
    requires Closed(p) && root < |p| && c < |p| && root != c
    ensures p[root].left < |p| && |HeaderPool(p, root, c, name)| == |p| && Closed(HeaderPool(p, root, c, name))
  {
    assert InPool(p, root);
    var q := HeaderPool(p, root, c, name);
    forall i | 0 <= i < |p| ensures InPool(q, i) {
      assert InPool(p, i);
    }
  }

  lemma HeaderPoolOther(p: Pool, root: nat, c: nat, name: int)
    requires Closed(p) && root < |p| && c < |p| && root != c && p[root].left != c
    ensures p[root].left < |p| && |HeaderPool(p, root, c, name)| == |p|
    ensures
      var q := HeaderPool(p, root, c, name);
      forall i :: 0 <= i < |p| && i != c ==>
        && q[i].up == p[i].up && q[i].down == p[i].down && q[i].size == p[i].size && q[i].col == p[i].col
        && q[i].name == p[i].name
        && (i != root && i != p[root].left ==> q[i].left == p[i].left && q[i].right == p[i].right)
    ensures
      var q := HeaderPool(p, root, c, name);
      q[c].up == c && q[c].down == c && q[c].size == 0 && q[c].col == c && q[c].name == name
  {
    HeaderClosed(p, root, c, name);
  }

  lemma RootLeft(m: Matrix, p: Pool, v: View)
    requires Consistent(m, p, v)
    ensures v.root < |p| && (p[v.root].left == v.root || p[v.root].left in v.headers) && InPool(p, v.root)
  {
    var n := |v.headers|;
    assert ([v.root] + v.headers)[0] == v.root && (v.headers + [v.root])[n] == v.root;
    assert p[v.root].left == ([v.root] + v.headers)[n];
  }

  // Every row node keeps its sides, its column and its name.
  ghost predicate RowNodesKept(m: Matrix, p: Pool, q: Pool) {
    && |q| == |p|
    && forall y :: y in m.others ==>
      && y < |p| && q[y].left == p[y].left && q[y].right == p[y].right
      && q[y].col == p[y].col && q[y].name == p[y].name
  }

  // Then its row is still a ring.
  lemma RowRingKept(m: Matrix, p: Pool, q: Pool, n: nat)
    requires ValidMatrix(m) && RowNodesKept(m, p, q) && n in m.others && HRing(p, n, m.others[n])
    ensures HRing(q, n, m.others[n])
  {
    hide ValidMatrix, HRing;
    forall i | 0 <= i <= |m.others[n]|
      ensures ([n] + m.others[n])[i] < |p|
      ensures q[([n] + m.others[n])[i]].right == p[([n] + m.others[n])[i]].right
      ensures q[([n] + m.others[n])[i]].left == p[([n] + m.others[n])[i]].left
    {
      RowNodeAt(m, n, i);
    }
    HRingKept(p, q, n, m.others[n]);
  }

  lemma HeaderKeepsNodes(m: Matrix, p: Pool, v: View, c: nat, name: int)
    requires Consistent(m, p, v) && UsedBelow(m, v, c) && c < |p|
    ensures v.root < |p| && p[v.root].left < |p| && RowNodesKept(m, p, HeaderPool(p, v.root, c, name))
    ensures forall d :: d in m.cols ==> d < |p| && HeaderPool(p, v.root, c, name)[d].col == d
    ensures HeaderPool(p, v.root, c, name)[c].col == c
  {
    hide ValidMatrix, ColumnRings, HRing, HeaderPool;
    ConsistentTyped(m, p, v);
    RootLeft(m, p, v);
    HeaderPoolOther(p, v.root, c, name);
  }

  lemma HeaderRows(m: Matrix, p: Pool, v: View, c: nat, name: int)
    requires Consistent(m, p, v) && UsedBelow(m, v, c) && c < |p|
    ensures v.root < |p| && p[v.root].left < |p|
    ensures RowRings(HeaderMatrix(m, c), HeaderPool(p, v.root, c, name))
  {
    hide ValidMatrix, ValidLists, ColumnRings, HRing, HeaderPool;
    ConsistentTyped(m, p, v);
    HeaderKeepsNodes(m, p, v, c, name);
    forall n | n in m.others ensures HRing(HeaderPool(p, v.root, c, name), n, m.others[n]) {
      RowRingKept(m, p, HeaderPool(p, v.root, c, name), n);
    }
  }

  lemma HeaderColumn(m: Matrix, p: Pool, v: View, c: nat, name: int, d: nat)
    requires Consistent(m, p, v) && UsedBelow(m, v, c) && c < |p| && d in v.lists && d != c
    ensures v.root < |p| && p[v.root].left < |p| && d < |p|
    ensures VRing(HeaderPool(p, v.root, c, name), d, v.lists[d])
    ensures HeaderPool(p, v.root, c, name)[d].size == p[d].size == |v.lists[d]|
  {
    hide ValidMatrix, ValidLists, RowRings, HRing, VRing, HeaderPool;
    RootLeft(m, p, v);
    RootLeftBelow(m, p, v, c);
    HeaderPoolOther(p, v.root, c, name);
    forall i | 0 <= i <= |v.lists[d]| ensures ([d] + v.lists[d])[i] < |p| && ([d] + v.lists[d])[i] != c {
      RingNodeBelow(m, p, v, c, d, i);
    }
    VRingKept(p, HeaderPool(p, v.root, c, name), d, v.lists[d]);
  }

  lemma RootLeftBelow(m: Matrix, p: Pool, v: View, c: nat)
    requires Consistent(m, p, v) && UsedBelow(m, v, c)
    ensures v.root < |p| && v.root != c && p[v.root].left != c
  {
    hide ValidMatrix, RowRings, ColumnRings, HRing;
    RootLeft(m, p, v);
  }

  lemma HeaderColumns(m: Matrix, p: Pool, v: View, c: nat, name: int)
    requires Consistent(m, p, v) && UsedBelow(m, v, c) && c < |p|
    ensures v.root < |p| && p[v.root].left < |p|
    ensures ColumnRings(HeaderPool(p, v.root, c, name), HeaderView(v, c))
  {
    hide ValidMatrix, ValidLists, RowRings, ColumnRings, HRing, VRing, HeaderPool;
    RootLeft(m, p, v);
    RootLeftBelow(m, p, v, c);
    HeaderPoolOther(p, v.root, c, name);
    var q, v' := HeaderPool(p, v.root, c, name), HeaderView(v, c);
    forall d | d in v'.lists ensures d < |q| && VRing(q, d, v'.lists[d]) && q[d].size == |v'.lists[d]| {
      if d == c {
        LoneColumn(q, c);
      } else {
        HeaderColumn(m, p, v, c, name, d);
      }
    }
    ColumnRingsFrom(q, v');
  }

  lemma LoneColumn(q: Pool, x: nat)
    requires x < |q| && q[x].up == x && q[x].down == x
    ensures VRing(q, x, [])
  {
  }

  lemma ColumnRingsFrom(q: Pool, v: View)
    requires forall d :: d in v.lists ==> d < |q| && VRing(q, d, v.lists[d]) && q[d].size == |v.lists[d]|
    ensures ColumnRings(q, v)
  {
  }

  lemma HeaderRing(m: Matrix, p: Pool, v: View, c: nat, name: int)
    requires Consistent(m, p, v) && UsedBelow(m, v, c) && c < |p|
    ensures v.root < |p| && p[v.root].left < |p|
    ensures HRing(HeaderPool(p, v.root, c, name), v.root, v.headers + [c])
  {
    RootLeft(m, p, v);
    assert c !in [v.root] + v.headers;
    HRingKept(p, Alone(p, c, c, name), v.root, v.headers);
    HRingAppend(Alone(p, c, c, name), v.root, v.headers, c);
  }

  lemma AddHeader(m: Matrix, p: Pool, v: View, c: nat, name: int)
    requires Full(m, p, v) && UsedBelow(m, v, c) && c < |p|
    ensures v.root < |p| && p[v.root].left < |p|
    ensures Full(HeaderMatrix(m, c), HeaderPool(p, v.root, c, name), HeaderView(v, c))
    ensures UsedBelow(HeaderMatrix(m, c), HeaderView(v, c), c + 1)
  {
    hide ValidMatrix, ValidLists, RowRings, ColumnRings, HRing, HeaderPool, Active;
    ConsistentTyped(m, p, v);
    RootLeft(m, p, v);
    HeaderClosed(p, v.root, c, name);
    HeaderMatrixValid(m, c);
    HeaderListsValid(m, v, c);
    HeaderActive(m, v, c);
    HeaderRows(m, p, v, c, name);
    HeaderColumns(m, p, v, c, name);
    HeaderRing(m, p, v, c, name);
  }

  // ---------- A new row node ----------

  ghost function NodePool(p: Pool, d: nat, x: nat, name: int): Pool {
    if InPool(p, d) && x < |p| && d != x then PutUp(Alone(p, x, d, name), d, x) else p
  }

  ghost function NodeMatrix(m: Matrix, d: nat, x: nat, name: int): Matrix {
    m.(col := m.col[x := d], name := m.name[x := name], others := m.others[x := []])
  }

  ghost function NodeView(v: View, d: nat, x: nat): View {
    if d in v.lists then v.(lists := v.lists[d := v.lists[d] + [x]]) else v
  }

  lemma NodeTyped(m: Matrix, d: nat, x: nat, name: int)
    requires Typed(m) && x !in m.cols && d in m.cols
    ensures Typed(NodeMatrix(m, d, x, name))
  {
  }

  lemma NodeMatrixRow(m: Matrix, d: nat, x: nat, name: int, n: nat, y: nat)
    requires ValidMatrix(m) && x !in m.others && n in m.others && y in m.others[n]
    ensures RowPair(NodeMatrix(m, d, x, name), n, y)
  {
    hide DistinctCols;
    assert RowNodes(m, y) == RowNodes(m, n);
  }

  lemma NodeMatrixCols(m: Matrix, d: nat, x: nat, name: int, n: nat)
    requires Typed(m) && x !in m.others && n in m.others && DistinctCols(m, m.others[n])
    ensures DistinctCols(NodeMatrix(m, d, x, name), m.others[n])
  {
  }

  lemma NodeMatrixValid(m: Matrix, d: nat, x: nat, name: int)
    requires ValidMatrix(m) && x !in m.others && x !in m.cols && d in m.cols
    ensures ValidMatrix(NodeMatrix(m, d, x, name))
  {
    hide RowNodes, RowPair, DistinctCols;
    var m' := NodeMatrix(m, d, x, name);
    NodeTyped(m, d, x, name);
    forall n, y | n in m'.others && y in m'.others[n] ensures RowPair(m', n, y) {
      NodeMatrixRow(m, d, x, name, n, y);
    }
    forall n | n in m'.others ensures DistinctCols(m', m'.others[n]) {
      if n == x {
        NoCols(m');
      } else {
        NodeMatrixCols(m, d, x, name, n);
      }
    }
    MatrixFromRows(m');
  }

  lemma NoCols(m: Matrix)
    ensures DistinctCols(m, [])
  {
  }

  lemma NodeListDistinct(m: Matrix, v: View, d: nat, x: nat)
    requires Typed(m) && ValidLists(m, v) && UsedBelow(m, v, x) && d in m.cols
    ensures d in v.lists && Distinct([d] + (v.lists[d] + [x]))
  {
    assert d in v.lists;
    assert forall n :: n in v.lists[d] ==> n in m.others;
    assert x !in [d] + v.lists[d];
    DistinctSnoc([d] + v.lists[d], x);
    assert [d] + (v.lists[d] + [x]) == ([d] + v.lists[d]) + [x];
  }

  lemma NodeListMember(m: Matrix, v: View, d: nat, x: nat, name: int, c: nat, n: nat)
    requires Typed(m) && ValidLists(m, v) && x !in m.others && d in v.lists
    requires c in NodeView(v, d, x).lists && n in NodeView(v, d, x).lists[c]
    ensures
      var m' := NodeMatrix(m, d, x, name);
      n in m'.others && n in m'.col && m'.col[n] == c
  {
    hide Distinct;
    if n in v.lists[c] {
      assert n in m.others && n != x;
    } else {
      assert c == d && n == x;
    }
  }

  lemma NodeListsValid(m: Matrix, v: View, d: nat, x: nat, name: int)
    requires Typed(m) && ValidLists(m, v) && UsedBelow(m, v, x) && d in m.cols
    ensures Typed(NodeMatrix(m, d, x, name)) && ValidLists(NodeMatrix(m, d, x, name), NodeView(v, d, x))
  {
    hide Distinct, NodeMatrix;
    NodeListDistinct(m, v, d, x);
    FreshNode(m, v, x);
    NodeTyped(m, d, x, name);
    NodeMatrixKeys(m, d, x, name);
    var m', v' := NodeMatrix(m, d, x, name), NodeView(v, d, x);
    forall c, n | c in v'.lists && n in v'.lists[c] ensures n in m'.others && n in m'.col && m'.col[n] == c {
      NodeListMember(m, v, d, x, name, c, n);
    }
  }

  lemma FreshNode(m: Matrix, v: View, x: nat)
    requires UsedBelow(m, v, x)
    ensures x !in m.others && x !in m.cols && x != v.root
  {
  }

  lemma NodeMatrixKeys(m: Matrix, d: nat, x: nat, name: int)
    ensures NodeMatrix(m, d, x, name).cols == m.cols
    ensures forall n :: n in NodeMatrix(m, d, x, name).others <==> n in m.others || n == x
  {
  }

  lemma HeaderUp(m: Matrix, p: Pool, v: View, d: nat)
    requires Consistent(m, p, v) && d in m.cols
    ensures d < |p| && d in v.lists && (p[d].up == d || p[d].up in m.others)
    ensures p[d].up < |p| && p[p[d].up].col == d && p[d].col == d && InPool(p, d)
  {
    hide ValidMatrix, HRing;
    var n := |v.lists[d]|;
    assert ([d] + v.lists[d])[0] == d && (v.lists[d] + [d])[n] == d;
    assert p[d].up == ([d] + v.lists[d])[n];
    assert n > 0 ==> v.lists[d][n - 1] in v.lists[d];
    RingColumn(m, p, v, d, n);
  }

  lemma NodeClosed(p: Pool, d: nat, x: nat, name: int)
    requires Closed(p) && d < |p| && x < |p| && d != x
    ensures p[d].up < |p| && |NodePool(p, d, x, name)| == |p| && Closed(NodePool(p, d, x, name))
  {
    assert InPool(p, d);
    var q := NodePool(p, d, x, name);
    forall i | 0 <= i < |p| ensures InPool(q, i) {
      assert InPool(p, i);
    }
  }

  lemma NodePoolOther(p: Pool, d: nat, x: nat, name: int)
    requires Closed(p) && d < |p| && x < |p| && d != x && p[d].up != x
    ensures p[d].up < |p| && |NodePool(p, d, x, name)| == |p|
    ensures
      var q := NodePool(p, d, x, name);
      forall i :: 0 <= i < |p| && i != x ==>
        && q[i].left == p[i].left && q[i].right == p[i].right && q[i].col == p[i].col && q[i].name == p[i].name
        && (i != d && i != p[d].up ==> q[i].up == p[i].up && q[i].down == p[i].down)
        && q[i].size == p[i].size + if i == d then 1 else 0
    ensures
      var q := NodePool(p, d, x, name);
      q[x].left == x && q[x].right == x && q[x].col == d && q[x].name == name
  {
    NodeClosed(p, d, x, name);
  }

  // Everything but `x` keeps its place in its row, its column and its name.
  ghost predicate SidesKept(p: Pool, q: Pool, x: nat) {
    && |q| == |p|
    && forall i :: 0 <= i < |p| && i != x ==>
      q[i].left == p[i].left && q[i].right == p[i].right && q[i].col == p[i].col && q[i].name == p[i].name
  }

  lemma NodeSides(m: Matrix, p: Pool, v: View, d: nat, x: nat, name: int)
    requires Consistent(m, p, v) && UsedBelow(m, v, x) && x < |p| && d in m.cols
    ensures d < |p| && p[d].up < |p| && SidesKept(p, NodePool(p, d, x, name), x)
    ensures
      var q := NodePool(p, d, x, name);
      q[x].left == x && q[x].right == x && q[x].col == d && q[x].name == name
  {
    hide ValidMatrix, ValidLists, RowRings, ColumnRings, HRing, NodePool;
    HeaderUp(m, p, v, d);
    NodePoolOther(p, d, x, name);
  }

  lemma NodeRows(m: Matrix, p: Pool, v: View, d: nat, x: nat, name: int)
    requires Consistent(m, p, v) && UsedBelow(m, v, x) && x < |p| && d in m.cols
    ensures Typed(NodeMatrix(m, d, x, name)) && RowRings(NodeMatrix(m, d, x, name), NodePool(p, d, x, name))
  {
    hide ValidMatrix, ValidLists, ColumnRings, HRing, NodePool;
    ConsistentTyped(m, p, v);
    NodeTyped(m, d, x, name);
    NodeSides(m, p, v, d, x, name);
    var m', q := NodeMatrix(m, d, x, name), NodePool(p, d, x, name);
    forall n | n in m'.others
      ensures n < |q| && HRing(q, n, m'.others[n]) && q[n].col == m'.col[n] && q[n].name == m'.name[n]
    {
      if n == x {
        LoneRing(q, x);
      } else {
        NodeRow(m, p, q, n, x);
      }
    }
    assert x !in m.cols;
  }

  lemma LoneRing(q: Pool, x: nat)
    requires x < |q| && q[x].left == x && q[x].right == x
    ensures HRing(q, x, [])
  {
  }

  // A row whose links did not change is still a ring.
  lemma NodeRow(m: Matrix, p: Pool, q: Pool, n: nat, x: nat)
    requires ValidMatrix(m) && n in m.others && n < |p| && HRing(p, n, m.others[n])
    requires (forall y :: y in m.others ==> y < |p| && y != x) && SidesKept(p, q, x)
    ensures HRing(q, n, m.others[n])
  {
    hide ValidMatrix, HRing;
    RowRingKept(m, p, q, n);
  }

  lemma NodeColumns(m: Matrix, p: Pool, v: View, d: nat, x: nat, name: int)
    requires Consistent(m, p, v) && UsedBelow(m, v, x) && x < |p| && d in m.cols
    ensures d < |p| && p[d].up < |p| && d in v.lists
    ensures ColumnRings(NodePool(p, d, x, name), NodeView(v, d, x))
  {
    hide ValidMatrix, RowRings, HRing, VRing, NodePool;
    HeaderUp(m, p, v, d);
    NodePoolOther(p, d, x, name);
    var q, v' := NodePool(p, d, x, name), NodeView(v, d, x);
    NodeOwnColumn(m, p, v, d, x, name);
    forall c | c in v'.lists ensures c < |q| && VRing(q, c, v'.lists[c]) && q[c].size == |v'.lists[c]| {
      if c != d {
        NodeOtherColumn(m, p, v, d, x, name, c);
      }
    }
  }

  lemma RingNodeBelow(m: Matrix, p: Pool, v: View, x: nat, c: nat, i: nat)
    requires Consistent(m, p, v) && UsedBelow(m, v, x) && c in v.lists && i <= |v.lists[c]|
    ensures ([c] + v.lists[c])[i] < x && ([c] + v.lists[c])[i] < |p| && p[([c] + v.lists[c])[i]].col == c
  {
    hide ValidMatrix, HRing, VRing;
    RingColumn(m, p, v, c, i);
    if i > 0 {
      assert v.lists[c][i - 1] in v.lists[c];
    }
  }

  lemma NodeOwnColumn(m: Matrix, p: Pool, v: View, d: nat, x: nat, name: int)
    requires Consistent(m, p, v) && UsedBelow(m, v, x) && x < |p| && d in v.lists && d in m.cols
    requires d < |p| && p[d].up < |p|
    ensures VRing(NodePool(p, d, x, name), d, v.lists[d] + [x])
  {
    forall i | 0 <= i <= |v.lists[d]| ensures ([d] + v.lists[d])[i] != x {
      RingNodeBelow(m, p, v, x, d, i);
    }
    assert x !in [d] + v.lists[d];
    hide ValidMatrix, RowRings, HRing, PutUp;
    VRingKept(p, Alone(p, x, d, name), d, v.lists[d]);
    VRingAppend(Alone(p, x, d, name), d, v.lists[d], x);
  }

  lemma NodeOtherColumn(m: Matrix, p: Pool, v: View, d: nat, x: nat, name: int, c: nat)
    requires Consistent(m, p, v) && UsedBelow(m, v, x) && x < |p| && d in m.cols && c in v.lists && c != d
    requires d < |p| && p[d].up < |p|
    ensures VRing(NodePool(p, d, x, name), c, v.lists[c])
  {
    hide ValidMatrix, ValidLists, RowRings, HRing, NodePool;
    HeaderUp(m, p, v, d);
    NodePoolOther(p, d, x, name);
    forall i | 0 <= i <= |v.lists[c]|
      ensures ([c] + v.lists[c])[i] < x && ([c] + v.lists[c])[i] < |p| && p[([c] + v.lists[c])[i]].col == c
    {
      RingNodeBelow(m, p, v, x, c, i);
    }
    VRingKept(p, NodePool(p, d, x, name), c, v.lists[c]);
  }

  lemma HeadersBelow(m: Matrix, v: View, x: nat)
    requires Typed(m) && ValidLists(m, v) && UsedBelow(m, v, x)
    ensures forall i :: 0 <= i <= |v.headers| ==> ([v.root] + v.headers)[i] < x
  {
    forall i | 0 <= i <= |v.headers| ensures ([v.root] + v.headers)[i] < x {
      assert i > 0 ==> v.headers[i - 1] in v.headers;
    }
  }

  lemma NodeHeaders(m: Matrix, p: Pool, v: View, d: nat, x: nat, name: int)
    requires Consistent(m, p, v) && UsedBelow(m, v, x) && x < |p| && d in m.cols
    ensures d < |p| && p[d].up < |p|
    ensures HRing(NodePool(p, d, x, name), v.root, v.headers)
  {
    hide ValidMatrix, RowRings, ColumnRings, VRing, NodePool;
    ConsistentTyped(m, p, v);
    NodeSides(m, p, v, d, x, name);
    HeadersBelow(m, v, x);
    HRingKept(p, NodePool(p, d, x, name), v.root, v.headers);
  }

  lemma NodeConsistent(m: Matrix, p: Pool, v: View, d: nat, x: nat, name: int)
    requires Consistent(m, p, v) && UsedBelow(m, v, x) && x < |p| && d in m.cols
    ensures d < |p| && p[d].up < |p| && d in v.lists
    ensures Consistent(NodeMatrix(m, d, x, name), NodePool(p, d, x, name), NodeView(v, d, x))
  {
    hide ValidMatrix, ValidLists, RowRings, ColumnRings, HRing, NodePool;
    ConsistentTyped(m, p, v);
    HeaderUp(m, p, v, d);
    NodeClosed(p, d, x, name);
    NodeMatrixValid(m, d, x, name);
    NodeListsValid(m, v, d, x, name);
    NodeRows(m, p, v, d, x, name);
    NodeColumns(m, p, v, d, x, name);
    NodeHeaders(m, p, v, d, x, name);
  }

  lemma AddNode(m: Matrix, p: Pool, v: View, d: nat, x: nat, name: int)
    requires Full(m, p, v) && UsedBelow(m, v, x) && x < |p| && d in m.cols
    ensures d < |p| && p[d].up < |p| && d in v.lists
    ensures Full(NodeMatrix(m, d, x, name), NodePool(p, d, x, name), NodeView(v, d, x))
    ensures UsedBelow(NodeMatrix(m, d, x, name), NodeView(v, d, x), x + 1)
  {
    hide Consistent, NodePool, Active;
    ConsistentTyped(m, p, v);
    NodeConsistent(m, p, v, d, x, name);
    NodeActive(m, v, d, x, name);
  }

  lemma NodeActive(m: Matrix, v: View, d: nat, x: nat, name: int)
    requires d in v.lists && x !in m.col && (forall n :: n in m.others ==> Active(m, v, n))
    ensures forall n :: n in NodeMatrix(m, d, x, name).others ==>
      Active(NodeMatrix(m, d, x, name), NodeView(v, d, x), n)
  {
    forall n | n in NodeMatrix(m, d, x, name).others
      ensures Active(NodeMatrix(m, d, x, name), NodeView(v, d, x), n)
    {
      assert n != x ==> Active(m, v, n);
    }
  }

  // ---------- Closing four lone nodes into a row ----------

  ghost function JoinPool(p: Pool, r: seq<nat>): Pool {
    if |r| == 4 && Closed(p) && (forall i :: 0 <= i < 4 ==> r[i] < |p|) then
      var p1 := Attach(p, r[0], r[1]);
      var p2 := Attach(p1, r[0], r[2]);
      Attach(p2, r[0], r[3])
    else p
  }

  function Attach(p: Pool, h: nat, x: nat): (q: Pool)
    ensures |q| == |p|
  {
    if InPool(p, h) && x < |p| then PutLeft(p, h, x) else p
  }

  ghost function JoinMatrix(m: Matrix, r: seq<nat>): Matrix
    requires |r| == 4
  {
    m.(others := m.others[r[0] := [r[1], r[2], r[3]]][r[1] := [r[2], r[3], r[0]]]
                         [r[2] := [r[3], r[0], r[1]]][r[3] := [r[0], r[1], r[2]]])
  }

  // Four different lone nodes in four different columns.
  ghost predicate FourLone(m: Matrix, r: seq<nat>) {
    && |r| == 4 && Distinct(r) && DistinctCols(m, r)
    && forall i :: 0 <= i < 4 ==> r[i] in m.others && m.others[r[i]] == []
  }

  // Only the sides of the nodes in `xs` differ.
  ghost predicate SidesOnly(p: Pool, q: Pool, xs: set<nat>) {
    && |q| == |p|
    && (forall i :: 0 <= i < |p| ==>
      && q[i].up == p[i].up && q[i].down == p[i].down && q[i].size == p[i].size && q[i].col == p[i].col
      && q[i].name == p[i].name)
    && (forall i :: 0 <= i < |p| && i !in xs ==> q[i].left == p[i].left && q[i].right == p[i].right)
  }

  lemma SidesOnlyChain(p: Pool, q: Pool, r: Pool, xs: set<nat>)
    requires SidesOnly(p, q, xs) && SidesOnly(q, r, xs)
    ensures SidesOnly(p, r, xs)
  {
  }

  lemma AttachStep(p: Pool, h: nat, ns: seq<nat>, x: nat, xs: set<nat>)
    requires Closed(p) && HRing(p, h, ns) && Distinct([h] + ns + [x]) && x < |p|
    requires forall y :: y in [h] + ns + [x] ==> y in xs
    ensures Closed(Attach(p, h, x)) && HRing(Attach(p, h, x), h, ns + [x])
    ensures SidesOnly(p, Attach(p, h, x), xs)
  {
    var a := [h] + ns;
    assert a[0] == h && (ns + [h])[|ns|] == h && p[h].left == a[|ns|];
    assert InPool(p, h);
    forall i, j | 0 <= i < j < |a| ensures a[i] != a[j] {
      assert (a + [x])[i] == a[i] && (a + [x])[j] == a[j];
    }
    forall i | 0 <= i < |a| ensures a[i] != x {
      assert (a + [x])[i] == a[i] && (a + [x])[|a|] == x;
    }
    HRingAppend(p, h, ns, x);
    forall i | 0 <= i < |p| ensures InPool(PutLeft(p, h, x), i) {
      assert InPool(p, i);
    }
    assert a[|ns|] in [h] + ns + [x];
  }

  // Only the four nodes' sides change, and they form a ring whichever of them one starts at.
  ghost predicate Joined(p: Pool, q: Pool, r: seq<nat>) {
    |r| == 4 && Closed(q) && SidesOnly(p, q, {r[0], r[1], r[2], r[3]}) && HRing(q, r[0], [r[1], r[2], r[3]])
  }

  lemma JoinPoolJoined(p: Pool, r: seq<nat>)
    requires Closed(p) && |r| == 4 && Distinct(r) && (forall i :: 0 <= i < 4 ==> r[i] < |p|)
    requires HRing(p, r[0], [])
    ensures Joined(p, JoinPool(p, r), r)
  {
    hide HRing, Attach, SidesOnly, Closed;
    var a, b, c, d := r[0], r[1], r[2], r[3];
    assert r == [a, b, c, d];
    assert [a] + [] + [b] == [a, b] && [] + [b] == [b];
    assert [a] + [b] + [c] == [a, b, c] && [b] + [c] == [b, c];
    assert [a] + [b, c] + [d] == [a, b, c, d] && [b, c] + [d] == [b, c, d];
    var xs := {a, b, c, d};
    AttachStep(p, a, [], b, xs);
    var p1 := Attach(p, a, b);
    AttachStep(p1, a, [b], c, xs);
    var p2 := Attach(p1, a, c);
    AttachStep(p2, a, [b, c], d, xs);
    SidesOnlyChain(p, p1, p2, xs);
    SidesOnlyChain(p, p2, Attach(p2, a, d), xs);
  }

  lemma FourRings(q: Pool, r: seq<nat>)
    requires |r| == 4 && HRing(q, r[0], [r[1], r[2], r[3]])
    ensures HRing(q, r[1], [r[2], r[3], r[0]])
    ensures HRing(q, r[2], [r[3], r[0], r[1]])
    ensures HRing(q, r[3], [r[0], r[1], r[2]])
  {
    hide HRing;
    HRingRotate(q, r[0], [r[1], r[2], r[3]]);
    assert [r[1], r[2], r[3]][1..] + [r[0]] == [r[2], r[3], r[0]];
    HRingRotate(q, r[1], [r[2], r[3], r[0]]);
    assert [r[2], r[3], r[0]][1..] + [r[1]] == [r[3], r[0], r[1]];
    HRingRotate(q, r[2], [r[3], r[0], r[1]]);
    assert [r[3], r[0], r[1]][1..] + [r[2]] == [r[0], r[1], r[2]];
  }

  // A lone node is in no other row.
  lemma LoneApart(m: Matrix, n: nat, x: nat)
    requires ValidMatrix(m) && n in m.others && x in m.others && m.others[x] == []
    ensures x !in m.others[n]
  {
    assert x in m.others[n] ==> n in RowNodes(m, x);
  }

  lemma NotAmongLone(m: Matrix, r: seq<nat>, n: nat, x: nat)
    requires ValidMatrix(m) && FourLone(m, r) && n in m.others && x in m.others[n]
    ensures x !in r
  {
    hide ValidMatrix;
    forall i | 0 <= i < 4 ensures r[i] != x {
      LoneApart(m, n, r[i]);
    }
  }

  lemma JoinRowOld(m: Matrix, r: seq<nat>, n: nat, x: nat)
    requires ValidMatrix(m) && FourLone(m, r) && n in m.others && n !in r && x in m.others[n]
    ensures JoinMatrix(m, r).others[n] == m.others[n] && RowPair(JoinMatrix(m, r), n, x)
  {
    hide DistinctCols, Distinct;
    NotAmongLone(m, r, n, x);
    assert RowNodes(m, x) == RowNodes(m, n);
  }

  lemma JoinRowNew(m: Matrix, r: seq<nat>, k: nat)
    requires FourLone(m, r) && k < 4
    ensures RowNodes(JoinMatrix(m, r), r[k]) == {r[0], r[1], r[2], r[3]}
    ensures forall x :: x in JoinMatrix(m, r).others[r[k]] ==> x in r && x != r[k]
  {
    hide DistinctCols;
  }

  lemma JoinColsNew(m: Matrix, r: seq<nat>, k: nat)
    requires FourLone(m, r) && k < 4
    ensures DistinctCols(m, JoinMatrix(m, r).others[r[k]])
  {
  }

  lemma JoinTyped(m: Matrix, r: seq<nat>)
    requires ValidMatrix(m) && FourLone(m, r)
    ensures JoinMatrix(m, r).others.Keys == m.others.Keys && Typed(JoinMatrix(m, r))
    ensures JoinMatrix(m, r).col == m.col && JoinMatrix(m, r).cols == m.cols
  {
  }

  lemma ColsDiffer(m: Matrix, r: seq<nat>, x: nat, y: nat)
    requires DistinctCols(m, r) && x in r && y in r && x != y
    ensures x in m.col && y in m.col && m.col[x] != m.col[y]
  {
    var i, j := IndexOf(r, x), IndexOf(r, y);
    assert i < j || j < i;
  }

  lemma JoinMatrixValid(m: Matrix, r: seq<nat>)
    requires ValidMatrix(m) && |r| == 4 && FourLone(m, r)
    ensures ValidMatrix(JoinMatrix(m, r))
  {
    hide ValidMatrix, JoinMatrix, FourLone, RowPair, DistinctCols;
    var m' := JoinMatrix(m, r);
    JoinTyped(m, r);
    forall n, x | n in m'.others && x in m'.others[n] ensures RowPair(m', n, x) {
      JoinPair(m, r, n, x);
    }
    forall n | n in m'.others ensures DistinctCols(m', m'.others[n]) {
      JoinCols(m, r, n);
    }
    MatrixFromRows(m');
  }

  lemma JoinPair(m: Matrix, r: seq<nat>, n: nat, x: nat)
    requires ValidMatrix(m) && FourLone(m, r) && n in JoinMatrix(m, r).others && x in JoinMatrix(m, r).others[n]
    ensures RowPair(JoinMatrix(m, r), n, x)
  {
    hide JoinMatrix, RowNodes;
    JoinTyped(m, r);
    if n in r {
      var k := IndexOf(r, n);
      JoinRowNew(m, r, k);
      JoinRowNew(m, r, IndexOf(r, x));
      ColsDiffer(m, r, x, n);
    } else {
      JoinKeeps(m, r, n);
      JoinRowOld(m, r, n, x);
    }
  }

  lemma JoinCols(m: Matrix, r: seq<nat>, n: nat)
    requires ValidMatrix(m) && FourLone(m, r) && n in m.others && n in JoinMatrix(m, r).others
    ensures DistinctCols(JoinMatrix(m, r), JoinMatrix(m, r).others[n])
  {
    if n in r {
      JoinColsNew(m, r, IndexOf(r, n));
    } else {
      assert DistinctCols(m, m.others[n]);
    }
  }

  lemma JoinKeeps(m: Matrix, r: seq<nat>, n: nat)
    requires |r| == 4 && n in m.others && n !in r
    ensures n in JoinMatrix(m, r).others && JoinMatrix(m, r).others[n] == m.others[n]
  {
  }

  lemma JoinRows(m: Matrix, p: Pool, q: Pool, r: seq<nat>)
    requires ValidMatrix(m) && RowRings(m, p) && FourLone(m, r) && Joined(p, q, r)
    ensures Typed(JoinMatrix(m, r)) && RowRings(JoinMatrix(m, r), q)
  {
    hide HRing;
    JoinTyped(m, r);
    FourRings(q, r);
    var m' := JoinMatrix(m, r);
    forall n | n in m'.others ensures HRing(q, n, m'.others[n]) {
      if n in r {
        var k := IndexOf(r, n);
        assert k == 0 || k == 1 || k == 2 || k == 3;
      } else {
        JoinRowKept(m, p, q, r, n);
      }
    }
  }

  lemma JoinRowKept(m: Matrix, p: Pool, q: Pool, r: seq<nat>, n: nat)
    requires ValidMatrix(m) && RowRings(m, p) && FourLone(m, r) && Joined(p, q, r) && n in m.others && n !in r
    ensures HRing(q, n, m.others[n])
  {
    hide ValidMatrix, FourLone;
    var ns := [n] + m.others[n];
    forall i | 0 <= i <= |m.others[n]| ensures ns[i] !in r && ns[i] < |p| {
      RowNodeAt(m, n, i);
      if i > 0 {
        NotAmongLone(m, r, n, m.others[n][i - 1]);
      }
    }
    assert r == [r[0], r[1], r[2], r[3]];
    HRingKept(p, q, n, m.others[n]);
  }

  lemma JoinColumns(m: Matrix, p: Pool, q: Pool, v: View, r: seq<nat>)
    requires ColumnRings(p, v) && Joined(p, q, r)
    ensures ColumnRings(q, v)
  {
    forall c | c in v.lists ensures VRing(q, c, v.lists[c]) {
      VRingKept(p, q, c, v.lists[c]);
    }
  }

  lemma JoinHeaders(m: Matrix, p: Pool, q: Pool, v: View, r: seq<nat>)
    requires Typed(m) && ValidLists(m, v) && HRing(p, v.root, v.headers) && FourLone(m, r) && Joined(p, q, r)
    ensures HRing(q, v.root, v.headers)
  {
    forall i | 0 <= i <= |v.headers| ensures ([v.root] + v.headers)[i] !in r {
      assert i > 0 ==> v.headers[i - 1] in v.headers;
    }
    assert r == [r[0], r[1], r[2], r[3]];
    HRingKept(p, q, v.root, v.headers);
  }

  lemma JoinLists(m: Matrix, v: View, r: seq<nat>)
    requires Typed(m) && ValidLists(m, v) && |r| == 4 && Typed(JoinMatrix(m, r))
    requires JoinMatrix(m, r).others.Keys == m.others.Keys
    ensures ValidLists(JoinMatrix(m, r), v)
  {
  }

  lemma AddRow(m: Matrix, p: Pool, v: View, r: seq<nat>, k: nat)
    requires Full(m, p, v) && FourLone(m, r) && UsedBelow(m, v, k)
    ensures Full(JoinMatrix(m, r), JoinPool(p, r), v) && UsedBelow(JoinMatrix(m, r), v, k)
  {
    hide ValidMatrix, ValidLists, ColumnRings, HRing, JoinPool, Joined, FourLone, Distinct;
    ConsistentTyped(m, p, v);
    LoneStart(m, p, r);
    JoinPoolJoined(p, r);
    var q := JoinPool(p, r);
    JoinTyped(m, r);
    JoinMatrixValid(m, r);
    JoinLists(m, v, r);
    JoinRows(m, p, q, r);
    JoinColumns(m, p, q, v, r);
    JoinHeaders(m, p, q, v, r);
    assert Closed(q) by {
      JoinedClosed(p, q, r);
    }
    forall n | n in m.others ensures Active(JoinMatrix(m, r), v, n) {
      assert Active(m, v, n);
    }
  }

  lemma LoneStart(m: Matrix, p: Pool, r: seq<nat>)
    requires Typed(m) && RowRings(m, p) && FourLone(m, r)
    ensures |r| == 4 && Distinct(r) && (forall i :: 0 <= i < 4 ==> r[i] < |p|) && HRing(p, r[0], [])
  {
  }

  lemma JoinedClosed(p: Pool, q: Pool, r: seq<nat>)
    requires Joined(p, q, r)
    ensures Closed(q)
  {
  }
}
