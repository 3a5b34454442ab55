/**
 Exact covers of a matrix, and what choosing one row does to them.
 */
module ExactCover {
  import opened DancingLinks
  import opened Sequences

  // The rows of the nodes `xs` lie within `h`, do not overlap, and together cover all of `h`.
  ghost predicate IsExactCover(m: Matrix, h: set<nat>, xs: seq<nat>) {
    && (forall i :: 0 <= i < |xs| ==> xs[i] in m.others && RowCols(m, xs[i]) <= h)
    && (forall i, j :: 0 <= i < j < |xs| ==> RowCols(m, xs[i]) !! RowCols(m, xs[j]))
    && forall c :: c in h ==> Hits(m, xs, c)
  }

  ghost predicate Hits(m: Matrix, xs: seq<nat>, c: nat) {
    exists i :: 0 <= i < |xs| && xs[i] in m.others && c in RowCols(m, xs[i])
  }

  ghost predicate Coverable(m: Matrix, h: set<nat>) {
    exists xs :: IsExactCover(m, h, xs)
  }

  lemma EmptyCover(m: Matrix)
    ensures IsExactCover(m, {}, [])
  {
  }

  // A cover of what a row leaves over, with the row in front, is a cover.
  lemma ExtendCover(m: Matrix, h: set<nat>, r: nat, xs: seq<nat>)
    requires r in m.others && RowCols(m, r) <= h
    requires IsExactCover(m, h - RowCols(m, r), xs)
    ensures IsExactCover(m, h, [r] + xs)
  {
    hide RowCols;
    var ys := [r] + xs;
    forall c | c in h ensures Hits(m, ys, c) {
      if c in RowCols(m, r) {
        assert c in RowCols(m, ys[0]);
      } else {
        assert Hits(m, xs, c);
        var i :| 0 <= i < |xs| && xs[i] in m.others && c in RowCols(m, xs[i]);
        assert ys[i + 1] == xs[i];
      }
    }
  }

  // Some row of a cover goes through column `c`; the other rows cover what that row leaves over.
  lemma SplitCover(m: Matrix, h: set<nat>, xs: seq<nat>, c: nat) returns (n: nat)
    requires ValidMatrix(m) && IsExactCover(m, h, xs) && c in h
    ensures n in m.others && m.col[n] == c && RowCols(m, n) <= h
    ensures Coverable(m, h - RowCols(m, n))
  {
    assert Hits(m, xs, c);
    var i :| 0 <= i < |xs| && xs[i] in m.others && c in RowCols(m, xs[i]);
    n :| n in RowNodes(m, xs[i]) && n in m.col && m.col[n] == c;
    SameRowSameCols(m, xs[i], n);
    RestCovers(m, h, xs, i);
  }

  lemma RestCovers(m: Matrix, h: set<nat>, xs: seq<nat>, i: nat)
    requires IsExactCover(m, h, xs) && i < |xs|
    ensures IsExactCover(m, h - RowCols(m, xs[i]), RemoveAt(xs, i))
  {
    hide RowCols;
    var ys := RemoveAt(xs, i);
    forall c | c in h - RowCols(m, xs[i]) ensures Hits(m, ys, c) {
      assert Hits(m, xs, c);
      var k :| 0 <= k < |xs| && xs[k] in m.others && c in RowCols(m, xs[k]);
      assert ys[if k < i then k else k - 1] == xs[k];
    }
  }

  // If no row linked below live column `c` can be completed, the live columns have no exact cover.
  lemma NoRowNoCover(m: Matrix, v: View, c: nat)
    requires ValidMatrix(m) && ValidLists(m, v) && Faithful(m, v) && c in v.headers
    requires forall i :: 0 <= i < |v.lists[c]| ==>
      v.lists[c][i] in m.others && !Coverable(m, Live(v) - RowCols(m, v.lists[c][i]))
    ensures !Coverable(m, Live(v))
  {
    if Coverable(m, Live(v)) {
      var xs :| IsExactCover(m, Live(v), xs);
      var n := SplitCover(m, Live(v), xs, c);
      assert false;
    }
  }
}
