/**
 The generator's print_type against the signature it has read (src/core/dbus/generator.cpp:93-298): it is always
 defined, it is the signature's C++ spelling exactly when no type follows a completed array, and such spellings
 tell signatures apart up to one outer struct.
 */
module PrintedSignatures {
  import opened CursorTree
  import opened Sequences
  import opened Signatures
  import opened CppNames
  import opened Wrappers
  import opened TypeMangler
  import opened SignatureTrees
  import opened PrintedTypes
  import M = Message

  // ---------------------------------------------------------------- parse trees

  lemma {:induction false} TreePrintable(s: Shape)
    requires Valid(s)
    ensures Printable(TreeOf(s)) && Text(TreeOf(s)) == CppType(s)
    decreases s, 0
  {
    var t := TreeOf(s);
    match s
    case Basic(c) => assert BasicName(c) + "" == BasicName(c);
    case Variant => assert BasicName('v') + "" == BasicName('v');
    case Array(e) =>
      TreePrintable(e);
      OneText(TreeOf(e));
      Group("std::vector<", CppType(e), ">");
    case Dict(k, v) =>
      TreePrintable(v);
      PairPrintable(k, v);
      OneText(t.kids[0]);
      Group("std::vector<", Text(t.kids[0]), ">");
    case Struct(fs) =>
      TreesPrintable(fs);
      Group("std::tuple<", Joined(fs), ">");
  }

  lemma OneText(t: Tree<char>)
    requires Printable(t)
    ensures AllPrintable([t]) && Texts([t]) == Text(t)
  {
    assert [t][1..] == [];
  }

  lemma PairPrintable(k: char, v: Shape)
    requires IsBasicCode(k) && Printable(TreeOf(v)) && Text(TreeOf(v)) == CppType(v)
    ensures var p := Node('e', [Node(k, []), TreeOf(v)]);
            Printable(p) && Text(p) == "std::pair<" + BasicName(k) + ", " + CppType(v) + ">"
  {
    var x, y := Node(k, []), TreeOf(v);
    OneText(y);
    assert [x, y][1..] == [y];
    assert Text(x) == BasicName(k) + "" == BasicName(k);
    PairOfTwo(x, y);
  }

  lemma PairOfTwo(x: Tree<char>, y: Tree<char>)
    requires AllPrintable([x, y]) && Printable(x) && Printable(y)
    ensures Printable(Node('e', [x, y])) && Text(Node('e', [x, y])) == "std::pair<" + Text(x) + ", " + Text(y) + ">"
  {
    PairText(Text(x), Text(y));
  }

  lemma {:induction false} TreesPrintable(ss: seq<Shape>)
    requires ValidAll(ss)
    ensures AllPrintable(TreesOf(ss)) && (ss != [] ==> Texts(TreesOf(ss)) == Joined(ss))
    decreases ss, 1
  {
    if ss != [] {
      TreePrintable(ss[0]);
      TreesPrintable(ss[1..]);
      assert TreesOf(ss)[1..] == TreesOf(ss[1..]);
    }
  }

  /** Parse trees show all their elements. */
  lemma {:induction false} TreeShown(s: Shape)
    requires Valid(s) && Printable(TreeOf(s))
    ensures Shown(TreeOf(s)) == TreeOf(s)
    decreases s, 0
  {
    match s
    case Basic(_) =>
    case Variant =>
    case Array(e) =>
      TreePrintable(e);
      TreeShown(e);
      OneShown(TreeOf(e));
    case Dict(k, v) =>
      TreePrintable(v);
      TreeShown(v);
      PairPrintable(k, v);
      OneShown(Node('e', [Node(k, []), TreeOf(v)]));
    case Struct(fs) =>
      TreesShown(fs);
  }

  lemma OneShown(t: Tree<char>)
    requires Printable(t)
    ensures AllPrintable([t]) && AllShown([t]) == [Shown(t)]
  {
    assert [t][1..] == [];
  }

  lemma {:induction false} TreesShown(ss: seq<Shape>)
    requires ValidAll(ss) && AllPrintable(TreesOf(ss))
    ensures AllShown(TreesOf(ss)) == TreesOf(ss)
    decreases ss, 1
  {
    if ss != [] {
      TreePrintable(ss[0]);
      TreesPrintable(ss[1..]);
      TreeShown(ss[0]);
      TreesShown(ss[1..]);
      assert TreesOf(ss)[1..] == TreesOf(ss[1..]);
    }
  }

  lemma {:induction false} TreeInjective(s: Shape, t: Shape)
    requires Valid(s) && Valid(t) && TreeOf(s) == TreeOf(t)
    ensures s == t
    decreases s, 0
  {
    match (s, t)
    case (Array(d), Array(e)) =>
      assert TreeOf(s).kids[0] == TreeOf(t).kids[0];
      TreeInjective(d, e);
    case (Dict(k, v), Dict(l, w)) =>
      var x, y := TreeOf(s).kids[0].kids, TreeOf(t).kids[0].kids;
      assert x[0] == y[0] && x[1] == y[1];
      TreeInjective(v, w);
    case (Struct(fs), Struct(gs)) => TreesInjective(fs, gs);
    case _ =>
  }

  lemma {:induction false} TreesInjective(ss: seq<Shape>, tt: seq<Shape>)
    requires ValidAll(ss) && ValidAll(tt) && TreesOf(ss) == TreesOf(tt)
    ensures ss == tt
    decreases ss, 1
  {
    assert |TreesOf(ss)| == |TreesOf(tt)|;
    if ss != [] {
      assert TreesOf(ss)[0] == TreesOf(tt)[0];
      assert TreesOf(ss)[1..] == TreesOf(ss[1..]) && TreesOf(tt)[1..] == TreesOf(tt[1..]);
      TreeInjective(ss[0], tt[0]);
      TreesInjective(ss[1..], tt[1..]);
      assert ss == [ss[0]] + ss[1..] && tt == [tt[0]] + tt[1..];
    }
  }

  // ---------------------------------------------------------------- telling signatures apart

  /** Several top-level types are spelled like the one struct that holds them. */
  function Outer(ss: seq<Shape>): (s: Shape)
    requires ss != [] && ValidAll(ss)
    ensures Valid(s) && CppType(s) == CppSignature(ss)
  {
    if |ss| == 1 then ss[0] else Struct(ss)
  }

  lemma NotVoid(t: Tree<char>)
    requires Printable(t)
    ensures Text(t) != "void"
  {
    OpeningTells(t.tag);
    assert Text(t)[0] == Opening(t.tag)[0];
    assert Opening(t.tag)[0] != 'v';
  }

  /** Two valid signatures are spelled alike exactly when they are equal or one is one struct of the other's types. */
  lemma SpellingInjective(ss: seq<Shape>, tt: seq<Shape>)
    requires ValidAll(ss) && ValidAll(tt)
    ensures CppSignature(ss) == CppSignature(tt) <==>
            ss == tt || (|ss| > 1 && tt == [Struct(ss)]) || (|tt| > 1 && ss == [Struct(tt)])
  {
    if ss != [] {
      TreePrintable(Outer(ss));
      NotVoid(TreeOf(Outer(ss)));
    }
    if tt != [] {
      TreePrintable(Outer(tt));
      NotVoid(TreeOf(Outer(tt)));
    }
    if ss != [] && tt != [] {
      assert |ss| == 1 ==> ss == [ss[0]];
      assert |tt| == 1 ==> tt == [tt[0]];
      if CppSignature(ss) == CppSignature(tt) {
        SameSpelling(Outer(ss), Outer(tt));
      }
    }
  }

  lemma SameSpelling(s: Shape, t: Shape)
    requires Valid(s) && Valid(t) && CppType(s) == CppType(t)
    ensures s == t
  {
    TreePrintable(s);
    TreePrintable(t);
    TextsArePrefixFree(TreeOf(s), TreeOf(t), "", "");
    TreeShown(s);
    TreeShown(t);
    TreeInjective(s, t);
  }

  // ---------------------------------------------------------------- whatever lands can be printed

  /** The first entries of a listing: a container has a child, a dict entry two, anything else none. */
  predicate FirstFits(l: seq<(char, nat)>) {
    && l != []
    && IsKind(l[0].0)
    && (if IsContainer(l[0].0) then |l| > 1 && l[1].1 == l[0].1 + 1 else |l| > 1 ==> l[1].1 <= l[0].1)
    && (l[0].0 == 'e' ==> |l| > 2 && !IsContainer(l[1].0) && l[2].1 == l[1].1)
  }

  predicate Fits(l: seq<(char, nat)>)
    decreases |l|
  {
    l == [] || (FirstFits(l) && Fits(l[1..]))
  }

  lemma {:induction false} FitsDrop(x: seq<(char, nat)>, y: seq<(char, nat)>)
    requires Fits(x + y)
    ensures Fits(y)
    decreases |x|
  {
    if x == [] {
      assert x + y == y;
    } else {
      assert (x + y)[1..] == x[1..] + y;
      FitsDrop(x[1..], y);
    }
  }

  /** A forest is printable when its listing fits. */
  lemma {:induction false} FitsPrintable(ts: seq<Tree<char>>, d: nat, r: seq<(char, nat)>)
    requires Fits(FlatAll(ts, d) + r) && Climbs(r, d)
    ensures AllPrintable(ts)
    decreases ts
  {
    if ts != [] {
      var t, q := ts[0], FlatAll(ts[1..], d) + r;
      var l := FlatAll(t.kids, d + 1) + q;
      FlatAllUnfold(ts, d, r);
      assert (FlatAll(ts, d) + r)[1..] == l;
      ForestStarts(ts[1..], d);
      FitsDrop(FlatAll(t.kids, d + 1), q);
      FitsPrintable(t.kids, d + 1, q);
      FitsPrintable(ts[1..], d, r);
      RootFits(t, d, q);
    }
  }

  lemma RootFits(t: Tree<char>, d: nat, q: seq<(char, nat)>)
    requires FirstFits([(t.tag, d)] + (FlatAll(t.kids, d + 1) + q)) && Climbs(q, d + 1)
    requires AllPrintable(t.kids)
    ensures Printable(t)
  {
    var l := FlatAll(t.kids, d + 1) + q;
    assert ([(t.tag, d as nat)] + l)[1..] == l;
    ForestStarts(t.kids, d + 1);
    if t.tag == 'e' {
      var k := t.kids[0];
      assert l[0] == (k.tag, d + 1) && k.kids == [];
      FlatAllUnfold(t.kids, d + 1, q);
      assert l[1..] == FlatAll(t.kids[1..], d + 1) + q;
      assert ([(t.tag, d as nat)] + l)[2] == l[1..][0];
      ForestStarts(t.kids[1..], d + 1);
    }
  }

  lemma {:induction false} LandingFits(s: Shape, d: nat, r: seq<(char, nat)>)
    requires Valid(s) && Fits(r) && (r != [] ==> r[0].1 <= d + Arrays(s))
    ensures Fits([(DocOf(s).tag, d)] + Landing(DocOf(s).kids, d + 1) + r)
    decreases s, 0
  {
    var h, l := [(DocOf(s).tag, d)], Landing(DocOf(s).kids, d + 1);
    Group(h, l, r);
    assert (h + (l + r))[1..] == l + r;
    match s
    case Basic(_) => assert l + r == r;
    case Variant => assert l + r == r;
    case Array(e) => ElementFits(e, d + 1, r);
    case Dict(k, v) => PairFits(k, v, d + 1, r);
    case Struct(fs) => LandingsFit(fs, d + 1, r);
  }

  lemma OneLands(x: Doc<char>, d: nat)
    ensures Landing([x], d) == [(x.tag, d)] + Landing(x.kids, d + 1)
  {
    assert [x][1..] == [];
  }

  lemma {:induction false} ElementFits(e: Shape, d: nat, r: seq<(char, nat)>)
    requires Valid(e) && Fits(r) && (r != [] ==> r[0].1 <= d + Arrays(e))
    ensures Fits(Landing([DocOf(e)], d) + r)
    ensures (Landing([DocOf(e)], d) + r)[0].1 == d
    decreases e, 1
  {
    LandingFits(e, d, r);
    OneLands(DocOf(e), d);
  }

  lemma {:induction false} PairFits(k: char, v: Shape, d: nat, r: seq<(char, nat)>)
    requires IsBasicCode(k) && Valid(v) && Fits(r) && (r != [] ==> r[0].1 <= d + Arrays(v))
    ensures var pair := Doc('e', [Doc(k, [], false), DocOf(v)], false);
            Fits(Landing([pair], d) + r) && (Landing([pair], d) + r)[0].1 == d
    decreases v, 2
  {
    ElementFits(v, d + 1, r);
    PairLands(k, v, d);
    EntryFits(k, d, Landing([DocOf(v)], d + 1) + r);
    Group([('e', d)], [(k, (d + 1) as nat)] + Landing([DocOf(v)], d + 1), r);
    Group([(k, (d + 1) as nat)], Landing([DocOf(v)], d + 1), r);
  }

  lemma PairLands(k: char, v: Shape, d: nat)
    ensures Landing([Doc('e', [Doc(k, [], false), DocOf(v)], false)], d) ==
            [('e', d)] + ([(k, d + 1)] + Landing([DocOf(v)], d + 1))
  {
    var pair := Doc('e', [Doc(k, [], false), DocOf(v)], false);
    OneLands(pair, d);
    assert pair.kids[1..] == [DocOf(v)];
    assert Stickies(pair.kids[0]) == 0;
    assert [(k, d + 1)] + [] == [(k, d + 1)];
  }

  lemma EntryFits(k: char, d: nat, m: seq<(char, nat)>)
    requires IsBasicCode(k) && Fits(m) && m != [] && m[0].1 == d + 1
    ensures Fits([('e', d)] + ([(k, d + 1)] + m))
  {
    var y := [(k, (d + 1) as nat)] + m;
    assert y[1..] == m;
    assert FirstFits(y);
    assert Fits(y);
    var z := [('e', d)] + y;
    assert z[1..] == y && z[1] == (k, d + 1) && z[2] == m[0];
  }

  lemma {:induction false} LandingsFit(ss: seq<Shape>, d: nat, r: seq<(char, nat)>)
    requires ValidAll(ss) && Fits(r) && (r != [] ==> r[0].1 <= d + ArraysAll(ss))
    ensures Fits(Landing(DocsOf(ss), d) + r)
    ensures ss != [] ==> (Landing(DocsOf(ss), d) + r)[0].1 == d
    decreases ss, 1
  {
    if ss == [] {
      assert [] + r == r;
    } else {
      var x, n := DocOf(ss[0]), Arrays(ss[0]);
      CleanTail(ss[0]);
      assert DocsOf(ss)[1..] == DocsOf(ss[1..]);
      var m := Landing(DocsOf(ss[1..]), d + n);
      LandingsFit(ss[1..], d + n, r);
      LandingFits(ss[0], d, m + r);
      var h, k := [(x.tag, d)], Landing(x.kids, d + 1);
      assert Landing(DocsOf(ss), d) == h + k + m;
      Group(h + k, m, r);
      assert (h + k + m + r)[0] == h[0];
    }
  }

  // ---------------------------------------------------------------- print_type

  lemma {:induction false} LandingDeep(xs: seq<Doc<char>>, d: nat)
    ensures forall i | 0 <= i < |Landing(xs, d)| :: Landing(xs, d)[i].1 >= d
    decreases xs
  {
    if xs != [] {
      LandingDeep(xs[0].kids, d + 1);
      LandingDeep(xs[1..], d + Stickies(xs[0]));
    }
  }

  lemma RunListing(xs: seq<Doc<char>>)
    ensures Safe(0, OpsAll(xs)) && Run(EMPTY, OpsAll(xs)).tree.tag == M.INVALID
    ensures FlatAll(Run(EMPTY, OpsAll(xs)).tree.kids, 1) == Landing(xs, 1)
  {
    DocsDepth(EMPTY, xs);
    DocsLand(EMPTY, xs);
    ListingRoot(Run(EMPTY, OpsAll(xs)).tree, M.INVALID, Landing(xs, 1));
  }

  lemma ListingRoot(t: Tree<char>, c: char, l: seq<(char, nat)>)
    requires Flat(t, 0) == Flat(Node(c, []), 0) + l
    ensures t.tag == c && FlatAll(t.kids, 1) == l
  {
    assert Flat(t, 0)[0] == (t.tag, 0);
    assert Flat(t, 0)[1..] == FlatAll(t.kids, 1);
    assert Flat(Node(c, []), 0) == [(c, 0)];
  }

  lemma MangledListing(s: string, ss: seq<Shape>)
    requires ParseAll(s) == Some(ss)
    ensures Safe(0, StringOps(s)) && Mangled(s).tree.tag == M.INVALID
    ensures FlatAll(Mangled(s).tree.kids, 1) == Landing(DocsOf(ss), 1)
  {
    ParseAllExact(s, ss);
    AllRenderedOps(ss);
    RunListing(DocsOf(ss));
  }

  /** Every element a valid signature leads to can be printed: front() and back() of a dict entry are there. */
  lemma MangledPrintable(s: string, ss: seq<Shape>)
    requires ParseAll(s) == Some(ss)
    ensures Safe(0, StringOps(s)) && AllPrintable(Mangled(s).tree.kids) && PairsFilled(Mangled(s).tree)
  {
    ParseAllExact(s, ss);
    MangledListing(s, ss);
    LandingsFit(ss, 1, []);
    var t := Mangled(s).tree;
    assert FlatAll(t.kids, 1) + [] == Landing(DocsOf(ss), 1) + [];
    FitsPrintable(t.kids, 1, []);
    AllPrintableFilled(t.kids);
  }

  lemma MangledSize(s: string, ss: seq<Shape>)
    requires ParseAll(s) == Some(ss)
    ensures Safe(0, StringOps(s)) && SizeAll(Mangled(s).tree.kids) == SizeAll(TreesOf(ss))
    ensures |ss| == 1 ==> |Mangled(s).tree.kids| == 1
    ensures ss == [] <==> Mangled(s).tree.kids == []
  {
    MangledListing(s, ss);
    var ts := Mangled(s).tree.kids;
    FlatSize(ts, 1);
    FlatSize(TreesOf(ss), 1);
    LandingLength(DocsOf(ss), 1, 1);
    StripsAreTrees(ss);
    ForestStarts(ts, 1);
    if |ss| == 1 {
      var x := DocOf(ss[0]);
      assert DocsOf(ss) == [x];
      OneLands(x, 1);
      LandingDeep(x.kids, 2);
      OneRoot(ts, Landing(x.kids, 2));
    }
  }

  lemma OneRoot(ts: seq<Tree<char>>, l: seq<(char, nat)>)
    requires ts != [] && FlatAll(ts, 1) == [(ts[0].tag, 1)] + l
    requires forall i | 0 <= i < |l| :: l[i].1 >= 2
    ensures |ts| == 1
  {
    ForestStarts(ts[1..], 1);
  }

  /** A single tree, or the struct of several, has the text that is printed. */
  lemma PrintedText(t: Tree<char>)
    requires t.tag == M.INVALID && t.kids != [] && AllPrintable(t.kids) && PairsFilled(t)
    ensures Printable(Root(t.kids)) && PrintedType(t) == Text(Root(t.kids))
  {
    PrintsTexts(t.kids, NotRequired);
    assert "" + Texts(t.kids) == Texts(t.kids);
    if |t.kids| > 1 {
      var x := "std::tuple<" + Texts(t.kids) + ">";
      Group("std::tuple<", Texts(t.kids), ">");
      FramedText(NotRequired, x);
      assert "" + x == x;
    } else {
      assert Texts(t.kids) + "" == Texts(t.kids);
    }
  }

  function Root(ts: seq<Tree<char>>): Tree<char>
    requires ts != []
  {
    if |ts| == 1 then ts[0] else Node('r', ts)
  }

  lemma RootOfTrees(ss: seq<Shape>)
    requires ss != [] && ValidAll(ss)
    ensures Root(TreesOf(ss)) == TreeOf(Outer(ss))
    ensures AllPrintable(TreesOf(ss)) && Printable(Root(TreesOf(ss))) && Text(Root(TreesOf(ss))) == CppSignature(ss)
    ensures Shown(Root(TreesOf(ss))) == Root(TreesOf(ss))
  {
    TreesPrintable(ss);
    TreePrintable(Outer(ss));
    TreeShown(Outer(ss));
  }

  lemma RootSize(ts: seq<Tree<char>>)
    requires ts != []
    ensures Size(Root(ts)) == SizeAll(ts) + if |ts| == 1 then 0 else 1
  {
    if |ts| == 1 {
      assert ts[1..] == [];
    }
  }

  /** Forests of the same size with the same text, the second one shown in full, are the same. */
  lemma SameForest(ts: seq<Tree<char>>, us: seq<Tree<char>>)
    requires ts != [] && us != [] && Printable(Root(ts)) && Printable(Root(us))
    requires Text(Root(ts)) == Text(Root(us)) && Shown(Root(us)) == Root(us)
    requires SizeAll(ts) == SizeAll(us) && (|us| == 1 ==> |ts| == 1)
    ensures ts == us
  {
    SameRoot(Root(ts), Root(us));
    RootSize(ts);
    RootSize(us);
    RootInjective(ts, us);
  }

  lemma RootInjective(ts: seq<Tree<char>>, us: seq<Tree<char>>)
    requires ts != [] && us != [] && Root(ts) == Root(us) && (|ts| == 1 <==> |us| == 1)
    ensures ts == us
  {
    assert |ts| == 1 ==> ts == [Root(ts)];
    assert |us| == 1 ==> us == [Root(us)];
  }

  lemma SameRoot(t: Tree<char>, u: Tree<char>)
    requires Printable(t) && Printable(u) && Text(t) == Text(u) && Shown(u) == u
    ensures Size(u) <= Size(t) && (Size(u) == Size(t) ==> t == u)
  {
    TextsArePrefixFree(t, u, "", "");
    ShownSize(t);
  }

  /**
   print_type, after any valid signature, gives the signature's C++ spelling exactly when no type follows a
   completed array.
   */
  lemma PrintedExactly(s: string, ss: seq<Shape>)
    requires ParseAll(s) == Some(ss)
    ensures Safe(0, StringOps(s)) && PairsFilled(Mangled(s).tree)
    ensures PrintedType(Mangled(s).tree) == CppSignature(ss) <==> NothingAfterArray(ss)
  {
    ParseAllExact(s, ss);
    MangledPrintable(s, ss);
    MangledSize(s, ss);
    MangledExactly(s, ss);
    MangledListing(s, ss);
    var t := Mangled(s).tree;
    if ss != [] {
      PrintedText(t);
      RootOfTrees(ss);
      if PrintedType(t) == CppSignature(ss) {
        SameForest(t.kids, TreesOf(ss));
        assert t == Node(M.INVALID, TreesOf(ss));
      }
    }
  }

  // ---------------------------------------------------------------- several arguments, one mangler

  lemma {:induction false} RenderConcat(a: seq<Shape>, b: seq<Shape>)
    ensures RenderAll(a + b) == RenderAll(a) + RenderAll(b)
    decreases |a|
  {
    if a == [] {
      assert a + b == b;
    } else {
      assert (a + b)[1..] == a[1..] + b;
      RenderConcat(a[1..], b);
      Group(Render(a[0]), RenderAll(a[1..]), RenderAll(b));
    }
  }

  lemma {:induction false} ValidConcat(a: seq<Shape>, b: seq<Shape>)
    requires ValidAll(a) && ValidAll(b)
    ensures ValidAll(a + b)
    decreases |a|
  {
    if a == [] {
      assert a + b == b;
    } else {
      assert (a + b)[1..] == a[1..] + b;
      ValidConcat(a[1..], b);
    }
  }

  lemma {:induction false} ArrayConcat(a: seq<Shape>, b: seq<Shape>)
    ensures NothingAfterArray(a + b) <==>
            NothingAfterArray(a) && NothingAfterArray(b) && (ArraysAll(a) > 0 ==> b == [])
    decreases |a|
  {
    if a == [] {
      assert a + b == b;
    } else {
      assert (a + b)[1..] == a[1..] + b;
      ArrayConcat(a[1..], b);
    }
  }

  lemma ParseConcat(s: string, t: string, a: seq<Shape>, b: seq<Shape>)
    requires ParseAll(s) == Some(a) && ParseAll(t) == Some(b)
    ensures ParseAll(s + t) == Some(a + b)
  {
    ParseAllExact(s, a);
    ParseAllExact(t, b);
    RenderConcat(a, b);
    ValidConcat(a, b);
    ParseAllExact(s + t, a + b);
  }

  /**
   Two arguments of a method in the same direction share a mangler.  It goes on as for one signature, and prints
   their types right exactly when it would each of them alone and no array is in the first - or nothing in the second.
   */
  lemma SharedMangler(s: string, t: string, a: seq<Shape>, b: seq<Shape>)
    requires ParseAll(s) == Some(a) && ParseAll(t) == Some(b)
    ensures Safe(0, StringOps(s)) && Safe(Mangled(s).depth, StringOps(t))
    ensures var r := Run(Mangled(s), StringOps(t)).tree;
            PairsFilled(r) &&
            (PrintedType(r) == CppSignature(a + b) <==>
             NothingAfterArray(a) && NothingAfterArray(b) && (ArraysAll(a) > 0 ==> b == []))
  {
    ParseConcat(s, t, a, b);
    PrintedExactly(s + t, a + b);
    ArrayConcat(a, b);
    StringOpsConcat(s, t);
    RunSplit(EMPTY, StringOps(s), StringOps(t));
  }

  /** Arguments of types "as" and "i" in the same direction: the integer is printed as part of the array. */
  lemma ArrayThenArgument()
    ensures ParseAll("as") == Some([Array(Basic('s'))]) && ParseAll("i") == Some([Basic('i')])
    ensures Safe(0, StringOps("as")) && Safe(Mangled("as").depth, StringOps("i"))
    ensures var r := Run(Mangled("as"), StringOps("i")).tree;
            PairsFilled(r) && PrintedType(r) != CppSignature([Array(Basic('s')), Basic('i')])
  {
    var a, b := [Array(Basic('s'))], [Basic('i')];
    assert RenderAll(a) == "as" && RenderAll(b) == "i";
    ParseAllExact("as", a);
    ParseAllExact("i", b);
    SharedMangler("as", "i", a, b);
    assert a + b == [Array(Basic('s')), Basic('i')];
  }
}
