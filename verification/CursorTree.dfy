/**
 Trees that are grown one element at a time under a movable cursor.

 Both the signature parser of the generator (TypeMangler::State, src/core/dbus/generator.cpp:80-139) and the
 introspection compiler (Compiler::Private::Context, src/core/dbus/compiler.cpp:34-67) work this way: an "open"
 appends a fresh element under the element that `current` points to and moves `current` down to it, a "close"
 moves `current` to its parent.  Some of their elements are opened and never closed (arrays there, properties
 here); they are called sticky below.
 */
module CursorTree {
  import opened Sequences

  datatype Tree<L> = Node(tag: L, kids: seq<Tree<L>>)

  /** Number of edges on the rightmost path of a tree. */
  function Spine<L>(t: Tree<L>): nat {
    if t.kids == [] then 0 else 1 + Spine(t.kids[|t.kids| - 1])
  }

  /** Append `u` as the last child of the node at depth `d` on the rightmost path. */
  function Insert<L>(t: Tree<L>, d: nat, u: Tree<L>): (r: Tree<L>)
    requires d <= Spine(t)
    decreases d
  {
    if d == 0 then Node(t.tag, t.kids + [u])
    else
      var n := |t.kids| - 1;
      Node(t.tag, t.kids[..n] + [Insert(t.kids[n], d - 1, u)])
  }

  /** Preorder listing of tags, each with its depth. */
  function Flat<L>(t: Tree<L>, d: nat): seq<(L, nat)>
    decreases t, 0
  {
    [(t.tag, d)] + FlatAll(t.kids, d + 1)
  }

  function FlatAll<L>(ts: seq<Tree<L>>, d: nat): seq<(L, nat)>
    decreases ts, 1
  {
    if ts == [] then [] else Flat(ts[0], d) + FlatAll(ts[1..], d)
  }

  lemma {:induction false} FlatAllConcat<L>(ts: seq<Tree<L>>, us: seq<Tree<L>>, d: nat)
    ensures FlatAll(ts + us, d) == FlatAll(ts, d) + FlatAll(us, d)
  {
    if ts == [] {
      assert ts + us == us;
    } else {
      assert (ts + us)[1..] == ts[1..] + us;
      FlatAllConcat(ts[1..], us, d);
    }
  }

  lemma FlatAllSnoc<L>(ts: seq<Tree<L>>, u: Tree<L>, d: nat)
    ensures FlatAll(ts + [u], d) == FlatAll(ts, d) + Flat(u, d)
  {
    FlatAllConcat(ts, [u], d);
    assert [u][1..] == [];
    assert FlatAll([u], d) == Flat(u, d);
  }

  lemma {:induction false} SpineInsert<L>(t: Tree<L>, d: nat, l: L)
    requires d <= Spine(t)
    ensures Spine(Insert(t, d, Node(l, []))) == d + 1
    decreases d
  {
    if d > 0 {
      SpineInsert(t.kids[|t.kids| - 1], d - 1, l);
    }
  }

  /** Inserting a leaf on the rightmost path lists it last, one level below the cursor. */
  lemma {:induction false} FlatInsert<L>(t: Tree<L>, d: nat, l: L, k: nat)
    requires d <= Spine(t)
    ensures Flat(Insert(t, d, Node(l, [])), k) == Flat(t, k) + [(l, k + d + 1)]
    decreases d
  {
    var u := Node(l, []);
    if d == 0 {
      assert Flat(u, k + 1) == [(l, k + 1)];
      FlatAllSnoc(t.kids, u, k + 1);
    } else {
      var n := |t.kids| - 1;
      var ts, x := t.kids[..n], t.kids[n];
      var y := Insert(x, d - 1, u);
      FlatInsert(x, d - 1, l, k + 1);
      FlatAllSnoc(ts, y, k + 1);
      FlatAllSnoc(ts, x, k + 1);
      assert t.kids == ts + [x];
      var h := [(t.tag, k)];
      calc {
        Flat(Insert(t, d, u), k);
        h + FlatAll(ts + [y], k + 1);
        h + (FlatAll(ts, k + 1) + (Flat(x, k + 1) + [(l, k + d + 1)]));
        (h + (FlatAll(ts, k + 1) + Flat(x, k + 1))) + [(l, k + d + 1)];
      }
    }
  }

  /** The rest of a listing after a forest at depth `d`: it ends or climbs above `d`. */
  ghost predicate Climbs<L>(r: seq<(L, nat)>, d: nat) {
    r == [] || r[0].1 < d
  }

  lemma ForestStarts<L>(ts: seq<Tree<L>>, d: nat)
    ensures ts != [] ==> FlatAll(ts, d) != [] && FlatAll(ts, d)[0] == (ts[0].tag, d)
  {
    if ts != [] {
      assert Flat(ts[0], d)[0] == (ts[0].tag, d);
    }
  }

  lemma FlatAllUnfold<L>(ts: seq<Tree<L>>, d: nat, r: seq<(L, nat)>)
    requires ts != []
    ensures FlatAll(ts, d) + r == [(ts[0].tag, d)] + (FlatAll(ts[0].kids, d + 1) + (FlatAll(ts[1..], d) + r))
  {
  }

  lemma {:induction false} FlatInjectiveWithRest<L>(ts: seq<Tree<L>>, us: seq<Tree<L>>, d: nat,
                                                        r: seq<(L, nat)>, q: seq<(L, nat)>)
    requires FlatAll(ts, d) + r == FlatAll(us, d) + q
    requires Climbs(r, d) && Climbs(q, d)
    ensures ts == us && r == q
    decreases ts
  {
    var a := FlatAll(ts, d) + r;
    ForestStarts(ts, d);
    ForestStarts(us, d);
    assert ts == [] ==> a == r;
    assert us == [] ==> a == q;
    if ts != [] && us != [] {
      var r', q' := FlatAll(ts[1..], d) + r, FlatAll(us[1..], d) + q;
      FlatAllUnfold(ts, d, r);
      FlatAllUnfold(us, d, q);
      assert a[0] == (ts[0].tag, d) == (us[0].tag, d);
      assert a[1..] == FlatAll(ts[0].kids, d + 1) + r';
      assert a[1..] == FlatAll(us[0].kids, d + 1) + q';
      ForestStarts(ts[1..], d);
      ForestStarts(us[1..], d);
      FlatInjectiveWithRest(ts[0].kids, us[0].kids, d + 1, r', q');
      FlatInjectiveWithRest(ts[1..], us[1..], d, r, q);
      assert ts == [ts[0]] + ts[1..] && us == [us[0]] + us[1..];
    }
  }

  /** A tree is determined by its preorder listing with depths. */
  lemma FlatInjective<L>(t: Tree<L>, u: Tree<L>, d: nat)
    requires Flat(t, d) == Flat(u, d)
    ensures t == u
  {
    assert FlatAll([t], d) + [] == Flat(t, d);
    assert FlatAll([u], d) + [] == Flat(u, d);
    FlatInjectiveWithRest([t], [u], d, [], []);
    assert t == [t][0] == [u][0];
  }

  // ---------------------------------------------------------------- growing

  datatype Op<L> = Open(tag: L) | Close

  /** The tree so far and the depth of the cursor; depth -1 stands for a null cursor (the root's parent). */
  datatype Builder<L> = Builder(tree: Tree<L>, depth: int) {
    ghost predicate Valid() {
      -1 <= depth <= Spine(tree)
    }
  }

  function Step<L>(b: Builder<L>, op: Op<L>): (r: Builder<L>)
    requires b.Valid() && b.depth >= 0
    ensures r.Valid()
  {
    match op
    case Open(l) =>
      SpineInsert(b.tree, b.depth, l);
      Builder(Insert(b.tree, b.depth, Node(l, [])), b.depth + 1)
    case Close => Builder(b.tree, b.depth - 1)
  }

  /** No operation of `ops` finds a null cursor, starting at depth `d`. */
  ghost predicate Safe<L>(d: int, ops: seq<Op<L>>)
    decreases |ops|
  {
    ops == [] || (d >= 0 && Safe(if ops[0].Open? then d + 1 else d - 1, ops[1..]))
  }

  function Run<L>(b: Builder<L>, ops: seq<Op<L>>): (r: Builder<L>)
    requires b.Valid() && Safe(b.depth, ops)
    ensures r.Valid()
    decreases |ops|
  {
    if ops == [] then b else Run(Step(b, ops[0]), ops[1..])
  }

  lemma {:induction false} RunConcat<L>(b: Builder<L>, x: seq<Op<L>>, y: seq<Op<L>>)
    requires b.Valid() && Safe(b.depth, x) && Safe(Run(b, x).depth, y)
    ensures Safe(b.depth, x + y)
    ensures Run(b, x + y) == Run(Run(b, x), y)
    decreases |x|
  {
    if x == [] {
      assert x + y == y;
    } else {
      assert (x + y)[1..] == x[1..] + y;
      RunConcat(Step(b, x[0]), x[1..], y);
    }
  }

  function Opens<L>(ops: seq<Op<L>>): nat {
    if ops == [] then 0 else (if ops[0].Open? then 1 else 0) + Opens(ops[1..])
  }

  function Closes<L>(ops: seq<Op<L>>): nat {
    if ops == [] then 0 else (if ops[0].Close? then 1 else 0) + Closes(ops[1..])
  }

  function Tags<L>(ops: seq<Op<L>>): seq<L> {
    if ops == [] then [] else (if ops[0].Open? then [ops[0].tag] else []) + Tags(ops[1..])
  }

  function First<L>(xs: seq<(L, nat)>): seq<L> {
    if xs == [] then [] else [xs[0].0] + First(xs[1..])
  }

  lemma OneOp<L>(op: Op<L>)
    ensures Opens([op]) == (if op.Open? then 1 else 0) && Closes([op]) == (if op.Open? then 0 else 1)
    ensures Tags([op]) == if op.Open? then [op.tag] else []
  {
    assert [op][1..] == [];
  }

  lemma {:induction false} CountsConcat<L>(x: seq<Op<L>>, y: seq<Op<L>>)
    ensures Opens(x + y) == Opens(x) + Opens(y) && Closes(x + y) == Closes(x) + Closes(y)
    decreases |x|
  {
    if x == [] {
      assert x + y == y;
    } else {
      assert (x + y)[1..] == x[1..] + y;
      CountsConcat(x[1..], y);
    }
  }

  lemma {:induction false} TagsConcat<L>(x: seq<Op<L>>, y: seq<Op<L>>)
    ensures Tags(x + y) == Tags(x) + Tags(y)
    decreases |x|
  {
    if x == [] {
      assert x + y == y;
    } else {
      assert (x + y)[1..] == x[1..] + y;
      TagsConcat(x[1..], y);
      Group(if x[0].Open? then [x[0].tag] else [], Tags(x[1..]), Tags(y));
    }
  }

  lemma {:induction false} FirstConcat<L>(x: seq<(L, nat)>, y: seq<(L, nat)>)
    ensures First(x + y) == First(x) + First(y)
  {
    if x == [] {
      assert x + y == y;
    } else {
      assert (x + y)[1..] == x[1..] + y;
      FirstConcat(x[1..], y);
    }
  }

  lemma StepTags<L>(b: Builder<L>, op: Op<L>)
    requires b.Valid() && b.depth >= 0
    ensures First(Flat(Step(b, op).tree, 0)) == First(Flat(b.tree, 0)) + (if op.Open? then [op.tag] else [])
  {
    if op.Open? {
      var p := [(op.tag, b.depth + 1)];
      FlatInsert(b.tree, b.depth, op.tag, 0);
      FirstConcat(Flat(b.tree, 0), p);
      assert p[1..] == [];
    }
  }

  /** Whatever the operations: the cursor's depth counts them. */
  lemma {:induction false} RunDepth<L>(b: Builder<L>, ops: seq<Op<L>>)
    requires b.Valid() && Safe(b.depth, ops)
    ensures Run(b, ops).depth == b.depth + Opens(ops) - Closes(ops)
    decreases |ops|
  {
    if ops != [] {
      RunDepth(Step(b, ops[0]), ops[1..]);
    }
  }

  /** Whatever the operations: the preorder tags are the opened tags, in order. */
  lemma {:induction false} RunTags<L>(b: Builder<L>, ops: seq<Op<L>>)
    requires b.Valid() && Safe(b.depth, ops)
    ensures First(Flat(Run(b, ops).tree, 0)) == First(Flat(b.tree, 0)) + Tags(ops)
    decreases |ops|
  {
    if ops != [] {
      var c := Step(b, ops[0]);
      StepTags(b, ops[0]);
      RunTags(c, ops[1..]);
      var f, t: seq<L>, r := First(Flat(b.tree, 0)), if ops[0].Open? then [ops[0].tag] else [], Tags(ops[1..]);
      assert (f + t) + r == f + (t + r);
    }
  }

  lemma RunOne<L>(b: Builder<L>, op: Op<L>)
    requires b.Valid() && b.depth >= 0
    ensures Safe(b.depth, [op]) && Run(b, [op]) == Step(b, op)
  {
    assert [op][1..] == [];
  }

  lemma OpenThenClose<L>(b: Builder<L>, l: L)
    requires b.Valid() && b.depth >= 0
    ensures Safe(b.depth, [Open(l), Close]) && Run(b, [Open(l), Close]) == Builder(Step(b, Open(l)).tree, b.depth)
  {
    RunOne(b, Open(l));
    RunOne(Step(b, Open(l)), Close);
    RunConcat(b, [Open(l)], [Close]);
    assert [Open(l)] + [Close] == [Open(l), Close];
  }

  lemma {:induction false} SafeSplit<L>(d: int, x: seq<Op<L>>, y: seq<Op<L>>)
    requires Safe(d, x + y)
    ensures Safe(d, x) && Safe(d + Opens(x) - Closes(x), y)
    ensures y != [] ==> d + Opens(x) - Closes(x) >= 0
    decreases |x|
  {
    if x == [] {
      assert x + y == y;
    } else {
      assert (x + y)[1..] == x[1..] + y;
      SafeSplit(if x[0].Open? then d + 1 else d - 1, x[1..], y);
    }
  }

  lemma RunSplit<L>(b: Builder<L>, x: seq<Op<L>>, y: seq<Op<L>>)
    requires b.Valid() && Safe(b.depth, x + y)
    ensures Safe(b.depth, x) && Safe(Run(b, x).depth, y) && Run(b, x + y) == Run(Run(b, x), y)
  {
    SafeSplit(b.depth, x, y);
    RunDepth(b, x);
    RunConcat(b, x, y);
  }

  // ------------------------------------------------- documents with sticky elements

  /** What is being read: a document whose sticky elements lack their closing operation. */
  datatype Doc<L> = Doc(tag: L, kids: seq<Doc<L>>, sticky: bool)

  function OpsOf<L>(x: Doc<L>): seq<Op<L>>
    decreases x, 0
  {
    [Open(x.tag)] + OpsAll(x.kids) + (if x.sticky then [] else [Close])
  }

  function OpsAll<L>(xs: seq<Doc<L>>): seq<Op<L>>
    decreases xs, 1
  {
    if xs == [] then [] else OpsOf(xs[0]) + OpsAll(xs[1..])
  }

  /** The tree the document means. */
  function Strip<L>(x: Doc<L>): Tree<L>
    decreases x, 0
  {
    Node(x.tag, StripAll(x.kids))
  }

  function StripAll<L>(xs: seq<Doc<L>>): (r: seq<Tree<L>>)
    ensures |r| == |xs|
    decreases xs, 1
  {
    if xs == [] then [] else [Strip(xs[0])] + StripAll(xs[1..])
  }

  function Stickies<L>(x: Doc<L>): nat
    decreases x, 0
  {
    (if x.sticky then 1 else 0) + StickiesAll(x.kids)
  }

  function StickiesAll<L>(xs: seq<Doc<L>>): nat
    decreases xs, 1
  {
    if xs == [] then 0 else Stickies(xs[0]) + StickiesAll(xs[1..])
  }

  /** No element starts after a sticky one has ended. */
  predicate Clean<L>(xs: seq<Doc<L>>)
    decreases xs
  {
    xs == [] || (Clean(xs[0].kids) && Clean(xs[1..]) && (Stickies(xs[0]) > 0 ==> xs[1..] == []))
  }

  /** Tags in document order, each with the depth the cursor gives it when the first one lands at depth `d`. */
  function Landing<L>(xs: seq<Doc<L>>, d: nat): seq<(L, nat)>
    decreases xs
  {
    if xs == [] then []
    else [(xs[0].tag, d)] + Landing(xs[0].kids, d + 1) + Landing(xs[1..], d + Stickies(xs[0]))
  }

  lemma {:induction false} SafeConcat<L>(d: int, x: seq<Op<L>>, y: seq<Op<L>>)
    requires Safe(d, x) && Safe(d + Opens(x) - Closes(x), y)
    ensures Safe(d, x + y)
    ensures Opens(x + y) == Opens(x) + Opens(y)
    ensures Closes(x + y) == Closes(x) + Closes(y)
    decreases |x|
  {
    if x == [] {
      assert x + y == y;
    } else {
      assert (x + y)[1..] == x[1..] + y;
      SafeConcat(if x[0].Open? then d + 1 else d - 1, x[1..], y);
    }
  }

  lemma {:induction false} DocSafe<L>(x: Doc<L>, d: nat)
    ensures Safe(d, OpsOf(x))
    ensures Opens(OpsOf(x)) - Closes(OpsOf(x)) == Stickies(x)
    decreases x, 0
  {
    var o: seq<Op<L>>, k: seq<Op<L>>, c: seq<Op<L>> := [Open(x.tag)], OpsAll(x.kids), if x.sticky then [] else [Close];
    OpsSafe(x.kids, d + 1);
    assert o[1..] == [];
    assert Opens(o) == 1 && Closes(o) == 0 && Safe(d, o);
    SafeConcat(d, o, k);
    assert !x.sticky ==> c[1..] == [];
    assert Opens(c) == 0 && Closes(c) == (if x.sticky then 0 else 1);
    SafeConcat(d, o + k, c);
  }

  /** Reading a whole forest keeps the cursor above null and leaves it one level lower per sticky element. */
  lemma {:induction false} OpsSafe<L>(xs: seq<Doc<L>>, d: nat)
    ensures Safe(d, OpsAll(xs))
    ensures Opens(OpsAll(xs)) - Closes(OpsAll(xs)) == StickiesAll(xs)
    decreases xs, 1
  {
    if xs != [] {
      DocSafe(xs[0], d);
      OpsSafe(xs[1..], d + Stickies(xs[0]));
      SafeConcat(d, OpsOf(xs[0]), OpsAll(xs[1..]));
    }
  }

  lemma DocDepth<L>(b: Builder<L>, x: Doc<L>)
    requires b.Valid() && b.depth >= 0
    ensures Safe(b.depth, OpsOf(x)) && Run(b, OpsOf(x)).depth == b.depth + Stickies(x)
  {
    DocSafe(x, b.depth);
    RunDepth(b, OpsOf(x));
  }

  /** A whole forest leaves the cursor one level lower per sticky element. */
  lemma DocsDepth<L>(b: Builder<L>, xs: seq<Doc<L>>)
    requires b.Valid() && b.depth >= 0
    ensures Safe(b.depth, OpsAll(xs)) && Run(b, OpsAll(xs)).depth == b.depth + StickiesAll(xs)
  {
    OpsSafe(xs, b.depth);
    RunDepth(b, OpsAll(xs));
  }

  ghost function Listing<L>(b: Builder<L>): seq<(L, nat)> {
    Flat(b.tree, 0)
  }

  lemma {:induction false} DocLands<L>(b: Builder<L>, x: Doc<L>)
    requires b.Valid() && b.depth >= 0 && Safe(b.depth, OpsOf(x))
    ensures Listing(Run(b, OpsOf(x))) == Listing(b) + [(x.tag, b.depth + 1)] + Landing(x.kids, b.depth + 2)
    decreases x, 0
  {
    var o: seq<Op<L>>, k: seq<Op<L>>, c: seq<Op<L>> := [Open(x.tag)], OpsAll(x.kids), if x.sticky then [] else [Close];
    var b1 := Step(b, Open(x.tag));
    FlatInsert(b.tree, b.depth, x.tag, 0);
    assert o[1..] == [];
    assert Run(b, o) == b1;
    DocsDepth(b1, x.kids);
    DocsLand(b1, x.kids);
    RunConcat(b, o, k);
    EndRun(Run(b1, k), c);
    RunConcat(b, o + k, c);
  }

  lemma EndRun<L>(b: Builder<L>, c: seq<Op<L>>)
    requires b.Valid() && b.depth >= 0 && (c == [] || c == [Close])
    ensures Safe(b.depth, c) && Run(b, c).tree == b.tree
  {
    if c != [] {
      RunOne(b, Close);
    }
  }

  /** The operations of a forest, run from any state: every element lands where Landing says. */
  lemma {:induction false} DocsLand<L>(b: Builder<L>, xs: seq<Doc<L>>)
    requires b.Valid() && b.depth >= 0 && Safe(b.depth, OpsAll(xs))
    ensures Listing(Run(b, OpsAll(xs))) == Listing(b) + Landing(xs, b.depth + 1)
    decreases xs, 1
  {
    if xs != [] {
      var x, q := xs[0], xs[1..];
      DocDepth(b, x);
      var c := Run(b, OpsOf(x));
      DocsDepth(c, q);
      DocLands(b, x);
      DocsLand(c, q);
      RunConcat(b, OpsOf(x), OpsAll(q));
      calc {
        Listing(Run(b, OpsAll(xs)));
        Listing(c) + Landing(q, c.depth + 1);
        { Regroup(Listing(b), [(x.tag, (b.depth + 1) as nat)], Landing(x.kids, b.depth + 2), Landing(q, c.depth + 1)); }
        Listing(b) + Landing(xs, b.depth + 1);
      }
    }
  }

  lemma {:induction false} LandingLength<L>(xs: seq<Doc<L>>, d: nat, e: nat)
    ensures |Landing(xs, d)| == |FlatAll(StripAll(xs), e)|
    decreases xs
  {
    if xs != [] {
      LandingLength(xs[0].kids, d + 1, e + 1);
      LandingLength(xs[1..], d + Stickies(xs[0]), e);
      assert StripAll(xs)[1..] == StripAll(xs[1..]);
    }
  }

  lemma LandingUnfold<L>(xs: seq<Doc<L>>, d: nat)
    requires xs != []
    ensures Landing(xs, d) == FlatAll(StripAll(xs), d) <==>
            Landing(xs[0].kids, d + 1) == FlatAll(StripAll(xs[0].kids), d + 1) &&
            Landing(xs[1..], d + Stickies(xs[0])) == FlatAll(StripAll(xs[1..]), d)
  {
    var x := xs[0];
    LandingLength(x.kids, d + 1, d + 1);
    StripUnfold(xs, d);
    SplitEqual([(x.tag, d)], Landing(x.kids, d + 1), Landing(xs[1..], d + Stickies(x)),
               FlatAll(StripAll(x.kids), d + 1), FlatAll(StripAll(xs[1..]), d));
  }

  lemma StripUnfold<L>(xs: seq<Doc<L>>, d: nat)
    requires xs != []
    ensures FlatAll(StripAll(xs), d) ==
            [(xs[0].tag, d)] + FlatAll(StripAll(xs[0].kids), d + 1) + FlatAll(StripAll(xs[1..]), d)
  {
    assert StripAll(xs)[1..] == StripAll(xs[1..]);
  }

  lemma LandingShifted<L>(xs: seq<Doc<L>>, d: nat, s: nat)
    requires xs != [] && s > 0
    ensures Landing(xs, d + s) != FlatAll(StripAll(xs), d)
  {
    ForestStarts(StripAll(xs), d);
    assert Landing(xs, d + s)[0].1 == d + s;
  }

  /** Elements land where the document has them exactly when none starts after a sticky one has ended. */
  lemma {:induction false} LandingFaithful<L>(xs: seq<Doc<L>>, d: nat)
    ensures Landing(xs, d) == FlatAll(StripAll(xs), d) <==> Clean(xs)
    decreases xs
  {
    if xs != [] {
      LandingUnfold(xs, d);
      LandingFaithful(xs[0].kids, d + 1);
      if xs[1..] != [] && Stickies(xs[0]) > 0 {
        LandingShifted(xs[1..], d, Stickies(xs[0]));
      } else {
        LandingFaithful(xs[1..], d);
      }
    }
  }

  lemma SplitEqual<X>(h: seq<X>, a: seq<X>, b: seq<X>, c: seq<X>, d: seq<X>)
    requires |a| == |c|
    ensures h + a + b == h + c + d <==> a == c && b == d
    ensures a + b == c + d <==> a == c && b == d
  {
    if h + a + b == h + c + d {
      var l, r := h + a + b, h + c + d;
      assert a == l[|h|..|h| + |a|] && b == l[|h| + |a|..];
      assert c == r[|h|..|h| + |a|] && d == r[|h| + |a|..];
    }
    if a + b == c + d {
      assert a == (a + b)[..|a|] && b == (a + b)[|a|..];
      assert c == (c + d)[..|a|] && d == (c + d)[|a|..];
    }
  }

  /**
   The tree grown from a whole document is the document's own tree exactly when no element starts after a
   sticky one has ended.
   */
  lemma {:induction false} GrownFaithful<L>(root: L, xs: seq<Doc<L>>)
    ensures Safe(0, OpsAll(xs))
    ensures Run(Builder(Node(root, []), 0), OpsAll(xs)).tree == Node(root, StripAll(xs)) <==> Clean(xs)
  {
    var b := Builder(Node(root, []), 0);
    var t := Node(root, StripAll(xs));
    DocsDepth(b, xs);
    DocsLand(b, xs);
    LandingFaithful(xs, 1);
    var u := Run(b, OpsAll(xs)).tree;
    assert Flat(b.tree, 0) == [(root, 0)];
    if Flat(u, 0) == Flat(t, 0) {
      FlatInjective(u, t, 0);
      assert Landing(xs, 1) == Flat(u, 0)[1..] == FlatAll(StripAll(xs), 1);
    }
  }
}
