/**
 The tree the generator's TypeMangler builds for a valid signature (src/core/dbus/generator.cpp:80-189).  `current`
 descends at every 'a' and is never moved back up when the element type is complete, so what follows an array ends
 up inside it.
 */
module SignatureTrees {
  import opened CursorTree
  import opened Signatures
  import opened Wrappers
  import opened TypeMangler
  import M = Message

  /** The parse tree of one complete type. */
  function TreeOf(s: Shape): Tree<char>
    decreases s, 0
  {
    match s
    case Basic(c) => Node(c, [])
    case Variant => Node('v', [])
    case Array(e) => Node('a', [TreeOf(e)])
    case Dict(k, v) => Node('a', [Node('e', [Node(k, []), TreeOf(v)])])
    case Struct(fs) => Node('r', TreesOf(fs))
  }

  function TreesOf(ss: seq<Shape>): (r: seq<Tree<char>>)
    ensures |r| == |ss|
    decreases ss, 1
  {
    if ss == [] then [] else [TreeOf(ss[0])] + TreesOf(ss[1..])
  }

  /** The same as a document whose arrays are never closed. */
  function DocOf(s: Shape): Doc<char>
    decreases s, 0
  {
    match s
    case Basic(c) => Doc(c, [], false)
    case Variant => Doc('v', [], false)
    case Array(e) => Doc('a', [DocOf(e)], true)
    case Dict(k, v) => Doc('a', [Doc('e', [Doc(k, [], false), DocOf(v)], false)], true)
    case Struct(fs) => Doc('r', DocsOf(fs), false)
  }

  function DocsOf(ss: seq<Shape>): (r: seq<Doc<char>>)
    ensures |r| == |ss|
    decreases ss, 1
  {
    if ss == [] then [] else [DocOf(ss[0])] + DocsOf(ss[1..])
  }

  /** A mangler before it has seen any signature. */
  const EMPTY: Builder<char> := Builder(Node(M.INVALID, []), 0)

  // ---------------------------------------------------------------- signatures as documents

  lemma LeafOps(c: char)
    ensures OpsOf(Doc(c, [], false)) == [Open(c), Close]
  {
  }

  lemma OneDoc(x: Doc<char>)
    ensures OpsAll([x]) == OpsOf(x)
  {
    assert [x][1..] == [];
    assert OpsOf(x) + [] == OpsOf(x);
  }

  lemma TwoDocs(x: Doc<char>, y: Doc<char>)
    ensures OpsAll([x, y]) == OpsOf(x) + OpsOf(y)
  {
    assert [x, y][1..] == [y];
    OneDoc(y);
  }

  lemma CharString(c: char)
    ensures StringOps([c]) == CharOps(c)
  {
    assert [c][1..] == "";
    assert CharOps(c) + [] == CharOps(c);
  }

  lemma Bracketed(open: char, inner: string, close: string)
    ensures StringOps([open] + inner + close) == CharOps(open) + StringOps(inner) + StringOps(close)
  {
    StringOpsConcat([open] + inner, close);
    StringOpsConcat([open], inner);
    CharString(open);
  }

  lemma PairOps(k: char, v: Shape)
    requires IsBasicCode(k) && StringOps(Render(v)) == OpsOf(DocOf(v))
    ensures StringOps("{" + [k] + Render(v) + "}") == OpsOf(Doc('e', [Doc(k, [], false), DocOf(v)], false))
  {
    var inner := [k] + Render(v);
    assert "{" + [k] + Render(v) + "}" == "{" + inner + "}";
    Bracketed('{', inner, "}");
    StringOpsConcat([k], Render(v));
    CharString(k);
    CharString('}');
    LeafOps(k);
    TwoDocs(Doc(k, [], false), DocOf(v));
  }

  lemma DictOps(k: char, v: Shape)
    requires IsBasicCode(k) && StringOps(Render(v)) == OpsOf(DocOf(v))
    ensures StringOps(Render(Dict(k, v))) == OpsOf(DocOf(Dict(k, v)))
  {
    var pair := "{" + [k] + Render(v) + "}";
    assert Render(Dict(k, v)) == "a" + pair;
    PairOps(k, v);
    StringOpsConcat("a", pair);
    CharString('a');
    OneDoc(Doc('e', [Doc(k, [], false), DocOf(v)], false));
  }

  lemma {:induction false} RenderedOps(s: Shape)
    requires Valid(s)
    ensures StringOps(Render(s)) == OpsOf(DocOf(s))
    decreases s, 0
  {
    match s
    case Basic(c) => CharString(c); LeafOps(c);
    case Variant => CharString('v'); LeafOps('v');
    case Array(e) =>
      RenderedOps(e);
      StringOpsConcat("a", Render(e));
      CharString('a');
      OneDoc(DocOf(e));
    case Dict(k, v) =>
      RenderedOps(v);
      DictOps(k, v);
    case Struct(fs) =>
      AllRenderedOps(fs);
      Bracketed('(', RenderAll(fs), ")");
      CharString(')');
  }

  lemma {:induction false} AllRenderedOps(ss: seq<Shape>)
    requires ValidAll(ss)
    ensures StringOps(RenderAll(ss)) == OpsAll(DocsOf(ss))
    decreases ss, 1
  {
    if ss != [] {
      RenderedOps(ss[0]);
      AllRenderedOps(ss[1..]);
      StringOpsConcat(Render(ss[0]), RenderAll(ss[1..]));
      assert DocsOf(ss)[1..] == DocsOf(ss[1..]);
    }
  }

  lemma {:induction false} StripIsTree(s: Shape)
    ensures Strip(DocOf(s)) == TreeOf(s)
    decreases s, 0
  {
    match s
    case Basic(_) =>
    case Variant =>
    case Array(e) =>
      StripIsTree(e);
      StripOne(DocOf(e));
    case Dict(k, v) =>
      StripIsTree(v);
      var key := Doc(k, [], false);
      assert [key, DocOf(v)][1..] == [DocOf(v)];
      StripOne(DocOf(v));
      assert StripAll([key, DocOf(v)]) == [Node(k, []), TreeOf(v)];
      StripOne(Doc('e', [key, DocOf(v)], false));
    case Struct(fs) => StripsAreTrees(fs);
  }

  lemma StripOne(x: Doc<char>)
    ensures StripAll([x]) == [Strip(x)]
  {
    assert [x][1..] == [];
  }

  lemma {:induction false} StripsAreTrees(ss: seq<Shape>)
    ensures StripAll(DocsOf(ss)) == TreesOf(ss)
    decreases ss, 1
  {
    if ss != [] {
      StripIsTree(ss[0]);
      StripsAreTrees(ss[1..]);
      assert DocsOf(ss)[1..] == DocsOf(ss[1..]);
    }
  }

  // ---------------------------------------------------------------- where the mangler is right

  /** The number of arrays, dictionaries included. */
  function Arrays(s: Shape): nat
    decreases s, 0
  {
    match s
    case Basic(_) => 0
    case Variant => 0
    case Array(e) => 1 + Arrays(e)
    case Dict(_, v) => 1 + Arrays(v)
    case Struct(fs) => ArraysAll(fs)
  }

  function ArraysAll(ss: seq<Shape>): nat
    decreases ss, 1
  {
    if ss == [] then 0 else Arrays(ss[0]) + ArraysAll(ss[1..])
  }

  /** No type follows a completed array, inside any one type. */
  predicate Tail(s: Shape)
    decreases s, 0
  {
    match s
    case Basic(_) => true
    case Variant => true
    case Array(e) => Tail(e)
    case Dict(_, v) => Tail(v)
    case Struct(fs) => NothingAfterArray(fs)
  }

  /** No type follows a completed array: only the last of several types may hold one, at every level. */
  predicate NothingAfterArray(ss: seq<Shape>)
    decreases ss, 1
  {
    ss == [] || (Tail(ss[0]) && NothingAfterArray(ss[1..]) && (Arrays(ss[0]) > 0 ==> |ss| == 1))
  }

  lemma {:induction false} CleanTail(s: Shape)
    ensures Clean(DocOf(s).kids) <==> Tail(s)
    ensures Stickies(DocOf(s)) == Arrays(s)
    decreases s, 0
  {
    match s
    case Basic(_) =>
    case Variant =>
    case Array(e) =>
      CleanTail(e);
      OneSticky(DocOf(e));
    case Dict(k, v) =>
      CleanTail(v);
      var key, pair := Doc(k, [], false), Doc('e', [Doc(k, [], false), DocOf(v)], false);
      assert pair.kids == [key] + [DocOf(v)] && pair.kids[1..] == [DocOf(v)];
      assert Stickies(key) == 0 && Clean(key.kids);
      OneSticky(DocOf(v));
      assert StickiesAll(pair.kids) == Stickies(DocOf(v));
      OneSticky(pair);
    case Struct(fs) => CleanTails(fs);
  }

  lemma OneSticky(x: Doc<char>)
    ensures StickiesAll([x]) == Stickies(x) && (Clean([x]) <==> Clean(x.kids))
  {
    assert [x][1..] == [];
  }

  lemma {:induction false} CleanTails(ss: seq<Shape>)
    ensures Clean(DocsOf(ss)) <==> NothingAfterArray(ss)
    ensures StickiesAll(DocsOf(ss)) == ArraysAll(ss)
    decreases ss, 1
  {
    if ss != [] {
      CleanTail(ss[0]);
      CleanTails(ss[1..]);
      assert DocsOf(ss)[1..] == DocsOf(ss[1..]);
    }
  }

  /** What a fresh mangler holds after a string. */
  function Mangled(s: string): (b: Builder<char>)
    requires Safe(0, StringOps(s))
    ensures b.Valid()
  {
    Run(EMPTY, StringOps(s))
  }

  /**
   A valid signature never meets a null `current`, and the tree built is the parse tree exactly when no type
   follows a completed array.
   */
  lemma MangledExactly(s: string, ss: seq<Shape>)
    requires ParseAll(s) == Some(ss)
    ensures Safe(0, StringOps(s))
    ensures Mangled(s).tree == Node(M.INVALID, TreesOf(ss)) <==> NothingAfterArray(ss)
    ensures Mangled(s).depth == ArraysAll(ss)
  {
    ParseAllExact(s, ss);
    AllRenderedOps(ss);
    StripsAreTrees(ss);
    CleanTails(ss);
    GrownFaithful(M.INVALID, DocsOf(ss));
    DocsDepth(EMPTY, DocsOf(ss));
  }

  // ---------------------------------------------------------------- every prefix

  function Count(s: string, c: char): nat {
    if s == "" then 0 else (if s[0] == c then 1 else 0) + Count(s[1..], c)
  }

  /** Opening less closing characters. */
  function Nesting(s: string): int {
    Count(s, '(') + Count(s, '{') + Count(s, 'a') - Count(s, ')') - Count(s, '}')
  }

  /** The element a character adds, if any. */
  function LabelOf(c: char): string {
    match c
    case '(' => "r"
    case '{' => "e"
    case ')' => ""
    case '}' => ""
    case _ => [c]
  }

  function Labels(s: string): string {
    if s == "" then "" else LabelOf(s[0]) + Labels(s[1..])
  }

  lemma CharCounts(c: char)
    ensures Opens(CharOps(c)) - Closes(CharOps(c)) ==
            (if c == '(' || c == '{' || c == 'a' then 1 else if c == ')' || c == '}' then -1 else 0)
    ensures Tags(CharOps(c)) == LabelOf(c)
  {
    OneOp<char>(Close);
    OneOp(Open('r'));
    OneOp(Open('e'));
    OneOp(Open('a'));
    assert [Open(c), Close][1..] == [Close];
    assert [c] + [] == [c];
  }

  lemma {:induction false} StringCounts(s: string)
    ensures Opens(StringOps(s)) - Closes(StringOps(s)) == Nesting(s)
    ensures Tags(StringOps(s)) == Labels(s)
  {
    if s != "" {
      CharCounts(s[0]);
      StringCounts(s[1..]);
      CountsConcat(CharOps(s[0]), StringOps(s[1..]));
      TagsConcat(CharOps(s[0]), StringOps(s[1..]));
    }
  }

  lemma SomeOps(q: string)
    requires q != ""
    ensures StringOps(q) != []
  {
    assert CharOps(q[0]) != [];
  }

  /** A signature that can be read can be read up to any character, and `current` is not null before the next one. */
  lemma PrefixSafe(p: string, q: string)
    requires Safe(0, StringOps(p + q))
    ensures Safe(0, StringOps(p))
    ensures q != "" ==> Mangled(p).depth >= 0
  {
    StringOpsConcat(p, q);
    var x, y := StringOps(p), StringOps(q);
    SafeSplit(0, x, y);
    RunDepth(EMPTY, x);
    if q != "" {
      SomeOps(q);
    }
  }

  lemma MangledCounts(p: string)
    requires Safe(0, StringOps(p))
    ensures Mangled(p).depth == Nesting(p)
    ensures First(Flat(Mangled(p).tree, 0)) == [M.INVALID] + Labels(p)
  {
    StringCounts(p);
    RunDepth(EMPTY, StringOps(p));
    RunTags(EMPTY, StringOps(p));
    var f: seq<(char, nat)> := [(M.INVALID, 0)];
    assert Flat(EMPTY.tree, 0) == f;
    assert f[1..] == [];
  }

  /**
   After every prefix of a valid signature: `current` is not null, its depth on the rightmost path counts the
   opening less the closing characters, and the elements in preorder are the characters read, closing brackets
   dropped.
   */
  lemma PrefixMangled(s: string, n: nat)
    requires ParseAll(s).Some? && n <= |s|
    ensures Safe(0, StringOps(s[..n]))
    ensures 0 <= Mangled(s[..n]).depth <= Spine(Mangled(s[..n]).tree)
    ensures Mangled(s[..n]).depth == Nesting(s[..n])
    ensures First(Flat(Mangled(s[..n]).tree, 0)) == [M.INVALID] + Labels(s[..n])
  {
    assert s == s[..n] + s[n..];
    MangledExactly(s, ParseAll(s).value);
    PrefixSafe(s[..n], s[n..]);
    MangledCounts(s[..n]);
    assert s[n..] == "" ==> s[..n] == s;
  }

  // ---------------------------------------------------------------- strings of any kind

  lemma CharSafe(d: int, c: char)
    requires d >= 0
    ensures Safe(d, CharOps(c))
  {
    var x := CharOps(c);
    assert x[1..] == [] || x == [Open(c), Close];
    if |x| == 2 {
      assert x[1..] == [Close] && x[1..][1..] == [];
    }
  }

  lemma {:induction false} NestedSafe(s: string)
    requires forall n | 0 <= n < |s| :: Nesting(s[..n]) >= 0
    ensures Safe(0, StringOps(s))
    decreases |s|
  {
    if s != "" {
      var m := |s| - 1;
      var p, c := s[..m], s[m];
      forall n | 0 <= n < |p| ensures Nesting(p[..n]) >= 0 {
        assert p[..n] == s[..n];
      }
      NestedSafe(p);
      StringCounts(p);
      CharSafe(Nesting(p), c);
      CharString(c);
      SafeConcat(0, StringOps(p), CharOps(c));
      StringOpsConcat(p, [c]);
      assert s == p + [c];
    }
  }

  /** Any string, valid signature or not, is read without following a null `current` exactly when no proper prefix of it
      closes more than it opens. */
  lemma SafeExactly(s: string)
    ensures Safe(0, StringOps(s)) <==> forall n | 0 <= n < |s| :: Nesting(s[..n]) >= 0
  {
    if Safe(0, StringOps(s)) {
      forall n | 0 <= n < |s| ensures Nesting(s[..n]) >= 0 {
        assert s == s[..n] + s[n..];
        PrefixSafe(s[..n], s[n..]);
        MangledCounts(s[..n]);
      }
    } else if forall n | 0 <= n < |s| :: Nesting(s[..n]) >= 0 {
      NestedSafe(s);
    }
  }

  // ---------------------------------------------------------------- concrete failures

  /** "asi" is an array of strings and an integer, but not in the tree built. */
  lemma ArrayThenInteger()
    ensures ParseAll("asi") == Some([Array(Basic('s')), Basic('i')])
    ensures Safe(0, StringOps("asi"))
    ensures Mangled("asi").tree != Node(M.INVALID, TreesOf([Array(Basic('s')), Basic('i')]))
  {
    var ss := [Array(Basic('s')), Basic('i')];
    assert ss[1..] == [Basic('i')];
    assert RenderAll([Basic('i')]) == "i";
    assert RenderAll(ss) == "asi";
    ParseAllExact("asi", ss);
    MangledExactly("asi", ss);
  }

  /** A closing bracket without an opening one, and anything behind it. */
  lemma ClosesTooSoon()
    ensures !Safe(0, StringOps(")i"))
  {
    var s := ")i";
    assert s[..1] == [')'] && [')'][1..] == "";
    assert Nesting([')']) == -1;
    SafeExactly(s);
  }
}
