/**
 A tree of linked elements laid out in the order of creation: cell i records the tag, the parent's index and the
 indices of the children, oldest first; an index stands for a pointer to the element.  A layout also keeps its
 `spine`, the cells from the root down to the cursor.
 */
module Arena {
  import opened CursorTree

  datatype Cell<L> = Cell(tag: L, parent: int, kids: seq<nat>)

  ghost predicate Wf<L>(a: seq<Cell<L>>) {
    && |a| > 0
    && a[0].parent == -1
    && (forall i | 1 <= i < |a| :: 0 <= a[i].parent < i)
    && (forall i, k | 0 <= i < |a| && 0 <= k < |a[i].kids| :: i < a[i].kids[k] < |a| && a[a[i].kids[k]].parent == i)
    && (forall i, j, k | 0 <= i < |a| && 0 <= j < k < |a[i].kids| :: a[i].kids[j] < a[i].kids[k])
  }

  function TreeAt<L>(a: seq<Cell<L>>, i: nat): (t: Tree<L>)
    requires Wf(a) && i < |a|
    ensures t.tag == a[i].tag && |t.kids| == |a[i].kids|
    decreases |a| - i
  {
    Node(a[i].tag, seq(|a[i].kids|, k requires 0 <= k < |a[i].kids| => TreeAt(a, a[i].kids[k])))
  }

  ghost predicate IsSpine<L>(a: seq<Cell<L>>, spine: seq<nat>)
    requires Wf(a)
  {
    && (spine != [] ==> spine[0] == 0)
    && (forall j | 0 <= j < |spine| :: spine[j] < |a|)
    && (forall j | 0 <= j < |spine| - 1 :: a[spine[j]].kids != [] && Last(a[spine[j]].kids) == spine[j + 1])
  }

  function Last<X>(s: seq<X>): X
    requires s != []
  {
    s[|s| - 1]
  }

  lemma {:induction false} SpineDepth<L>(a: seq<Cell<L>>, spine: seq<nat>, j: nat)
    requires Wf(a) && IsSpine(a, spine)
    ensures j < |spine| ==> |spine| - 1 - j <= Spine(TreeAt(a, spine[j]))
    decreases |spine| - j
  {
    if j < |spine| - 1 {
      SpineDepth(a, spine, j + 1);
      var t := TreeAt(a, spine[j]);
      assert Last(t.kids) == TreeAt(a, spine[j + 1]);
    }
  }

  /** A fresh cell becomes the youngest child of cell c. */
  function Append<L>(a: seq<Cell<L>>, c: nat, l: L): seq<Cell<L>>
    requires c < |a|
  {
    a[c := a[c].(kids := a[c].kids + [|a|])] + [Cell(l, c, [])]
  }

  lemma AppendWf<L>(a: seq<Cell<L>>, c: nat, l: L)
    requires Wf(a) && c < |a|
    ensures Wf(Append(a, c, l))
  {
    var b := Append(a, c, l);
    forall i, k | 0 <= i < |b| && 0 <= k < |b[i].kids| ensures i < b[i].kids[k] < |b| && b[b[i].kids[k]].parent == i {
      if i < |a| && k < |a[i].kids| {
        assert b[i].kids[k] == a[i].kids[k];
      }
    }
  }

  lemma {:induction false} SpineIncreases<L>(a: seq<Cell<L>>, spine: seq<nat>, i: nat, j: nat)
    requires Wf(a) && IsSpine(a, spine) && i < j < |spine|
    ensures spine[i] < spine[j]
    decreases j
  {
    if i < j - 1 {
      SpineIncreases(a, spine, i, j - 1);
    }
    var x := a[spine[j - 1]].kids;
    assert x[|x| - 1] == spine[j];
  }

  lemma AppendSpine<L>(a: seq<Cell<L>>, spine: seq<nat>, l: L)
    requires Wf(a) && IsSpine(a, spine) && spine != []
    ensures Wf(Append(a, Last(spine), l))
    ensures IsSpine(Append(a, Last(spine), l), spine) && IsSpine(Append(a, Last(spine), l), spine + [|a|])
  {
    AppendWf(a, Last(spine), l);
    var b, s := Append(a, Last(spine), l), spine + [|a|];
    forall j | 0 <= j < |s| - 1 ensures b[s[j]].kids != [] && Last(b[s[j]].kids) == s[j + 1] {
      if j < |spine| - 1 {
        SpineIncreases(a, spine, j, |spine| - 1);
        assert b[s[j]] == a[spine[j]];
      }
    }
    SpinePrefix(b, s, |spine|);
    assert s[..|spine|] == spine;
  }

  lemma SpinePrefix<L>(a: seq<Cell<L>>, spine: seq<nat>, n: nat)
    requires Wf(a) && IsSpine(a, spine) && n <= |spine|
    ensures IsSpine(a, spine[..n])
  {
  }

  /** A child of a cell is on the spine only as the youngest child of a spine cell above the cursor. */
  lemma KidOnSpine<L>(a: seq<Cell<L>>, spine: seq<nat>, i: nat, k: nat)
    requires Wf(a) && IsSpine(a, spine) && i < |a| && k < |a[i].kids| && a[i].kids[k] in spine
    ensures i in spine && k == |a[i].kids| - 1 && i != Last(spine)
  {
    var y := a[i].kids[k];
    var j :| 0 <= j < |spine| && spine[j] == y;
    assert j > 0;
    var p := spine[j - 1];
    assert Last(a[p].kids) == y;
    assert a[y].parent == p == i;
    SpineIncreases(a, spine, j - 1, |spine| - 1);
  }

  /** Subtrees off the spine are untouched. */
  lemma {:induction false} AppendElsewhere<L>(a: seq<Cell<L>>, spine: seq<nat>, l: L, i: nat)
    requires Wf(a) && IsSpine(a, spine) && spine != [] && i < |a| && i !in spine
    requires Wf(Append(a, Last(spine), l))
    ensures TreeAt(Append(a, Last(spine), l), i) == TreeAt(a, i)
    decreases |a| - i
  {
    var b := Append(a, Last(spine), l);
    assert b[i] == a[i];
    forall k: nat | k < |a[i].kids| ensures TreeAt(b, a[i].kids[k]) == TreeAt(a, a[i].kids[k]) {
      if a[i].kids[k] in spine {
        KidOnSpine(a, spine, i, k);
        assert false;
      } else {
        AppendElsewhere(a, spine, l, a[i].kids[k]);
      }
    }
    assert TreeAt(b, i).kids == TreeAt(a, i).kids;
  }

  /** The children of a spine cell are untouched, except its youngest when the spine goes on through it. */
  lemma KidUntouched<L>(a: seq<Cell<L>>, spine: seq<nat>, l: L, i: nat, k: nat)
    requires Wf(a) && IsSpine(a, spine) && spine != [] && i < |a| && k < |a[i].kids|
    requires Wf(Append(a, Last(spine), l))
    requires i == Last(spine) || k < |a[i].kids| - 1
    ensures TreeAt(Append(a, Last(spine), l), a[i].kids[k]) == TreeAt(a, a[i].kids[k])
  {
    if a[i].kids[k] in spine {
      KidOnSpine(a, spine, i, k);
      assert false;
    } else {
      AppendElsewhere(a, spine, l, a[i].kids[k]);
    }
  }

  lemma AppendAtCursor<L>(a: seq<Cell<L>>, spine: seq<nat>, l: L)
    requires Wf(a) && IsSpine(a, spine) && spine != []
    requires Wf(Append(a, Last(spine), l))
    ensures TreeAt(Append(a, Last(spine), l), Last(spine)) == Insert(TreeAt(a, Last(spine)), 0, Node(l, []))
  {
    var i, n := Last(spine), |a|;
    var b := Append(a, i, l);
    forall k: nat | k < |a[i].kids| ensures TreeAt(b, a[i].kids[k]) == TreeAt(a, a[i].kids[k]) {
      KidUntouched(a, spine, l, i, k);
    }
    assert b[i].kids == a[i].kids + [n];
    assert TreeAt(b, n) == Node(l, []);
    assert TreeAt(b, i).kids == TreeAt(a, i).kids + [Node(l, [])];
  }

  lemma {:induction false} AppendOnSpine<L>(a: seq<Cell<L>>, spine: seq<nat>, l: L, j: nat)
    requires Wf(a) && IsSpine(a, spine) && j < |spine|
    requires Wf(Append(a, Last(spine), l))
    ensures |spine| - 1 - j <= Spine(TreeAt(a, spine[j]))
    ensures TreeAt(Append(a, Last(spine), l), spine[j]) == Insert(TreeAt(a, spine[j]), |spine| - 1 - j, Node(l, []))
    decreases |spine| - j
  {
    SpineDepth(a, spine, j);
    if j == |spine| - 1 {
      AppendAtCursor(a, spine, l);
    } else {
      var i := spine[j];
      var b, m := Append(a, Last(spine), l), |a[i].kids|;
      SpineIncreases(a, spine, j, |spine| - 1);
      assert b[i] == a[i];
      forall k: nat | k < m - 1 ensures TreeAt(b, a[i].kids[k]) == TreeAt(a, a[i].kids[k]) {
        KidUntouched(a, spine, l, i, k);
      }
      AppendOnSpine(a, spine, l, j + 1);
      LastKidChanges(a, b, i);
    }
  }

  lemma LastKidChanges<L>(a: seq<Cell<L>>, b: seq<Cell<L>>, i: nat)
    requires Wf(a) && Wf(b) && i < |a| <= |b| && a[i] == b[i] && a[i].kids != []
    requires forall k | 0 <= k < |a[i].kids| - 1 :: TreeAt(b, a[i].kids[k]) == TreeAt(a, a[i].kids[k])
    ensures var t := TreeAt(a, i);
            TreeAt(b, i) == Node(t.tag, t.kids[..|t.kids| - 1] + [TreeAt(b, Last(a[i].kids))])
  {
    var t := TreeAt(a, i);
    assert TreeAt(b, i).kids == t.kids[..|t.kids| - 1] + [TreeAt(b, Last(a[i].kids))];
  }

  // ---------------------------------------------------------------- layouts with their cursor

  datatype Layout<L> = Layout(cells: seq<Cell<L>>, spine: seq<nat>) {
    ghost predicate Ok() {
      Wf(cells) && IsSpine(cells, spine)
    }

    /** The tree and the cursor's depth; depth -1 is a null cursor. */
    ghost function Built(): (b: Builder<L>)
      requires Ok()
      ensures b.Valid()
    {
      SpineDepth(cells, spine, 0);
      Builder(TreeAt(cells, 0), |spine| - 1)
    }

    /** Index of the cell under the cursor. */
    function Cursor(): nat
      requires spine != []
    {
      Last(spine)
    }

    /** A fresh cell becomes the cursor's youngest child; the cursor stays. */
    function Grow(l: L): Layout<L>
      requires spine != [] && Cursor() < |cells|
    {
      Layout(Append(cells, Cursor(), l), spine)
    }

    /** The cursor moves down to its youngest child. */
    function Down(): Layout<L>
      requires spine != [] && Cursor() < |cells| && cells[Cursor()].kids != []
    {
      Layout(cells, spine + [Last(cells[Cursor()].kids)])
    }

    /** The cursor moves to its parent. */
    function Up(): Layout<L>
      requires spine != []
    {
      Layout(cells, spine[..|spine| - 1])
    }
  }

  /** Moving the cursor up is the builder's Close; above the root there is nothing. */
  lemma UpIsClose<L>(y: Layout<L>)
    requires y.Ok() && y.spine != []
    ensures y.Up().Ok() && y.Up().Built() == Step(y.Built(), Close)
    ensures y.cells[y.Cursor()].parent == if |y.spine| == 1 then -1 else y.Up().Cursor()
  {
    if |y.spine| > 1 {
      var p := y.spine[|y.spine| - 2];
      assert Last(y.cells[p].kids) == Last(y.spine);
    }
  }

  /** Growing a cell adds a leaf under the cursor. */
  lemma GrowOk<L>(y: Layout<L>, l: L)
    requires y.Ok() && y.spine != []
    ensures y.Grow(l).Ok()
    ensures y.Grow(l).Built() == Builder(Insert(y.Built().tree, y.Built().depth, Node(l, [])), y.Built().depth)
  {
    AppendSpine(y.cells, y.spine, l);
    AppendOnSpine(y.cells, y.spine, l, 0);
  }

  lemma DownOk<L>(y: Layout<L>)
    requires y.Ok() && y.spine != [] && y.cells[y.Cursor()].kids != []
    ensures y.Down().Ok() && y.Down().Built() == Builder(y.Built().tree, y.Built().depth + 1)
  {
  }

  /** Growing a cell and moving down to it is the builder's Open. */
  lemma GrowDownIsOpen<L>(y: Layout<L>, l: L)
    requires y.Ok() && y.spine != []
    ensures y.Grow(l).Ok() && y.Grow(l).cells[y.Cursor()].kids != []
    ensures y.Grow(l).Down().Ok() && y.Grow(l).Down().Built() == Step(y.Built(), Open(l))
  {
    GrowOk(y, l);
    DownOk(y.Grow(l));
  }
}
