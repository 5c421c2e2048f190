/**
 What the generator's TypeMangler prints for a valid signature (src/core/dbus/generator.cpp:56-78, 196-295): the
 comma machine writes a comma-separated join at every level, and the text is the C++ spelling of the signature
 exactly when the tree is its parse tree.
 */
module PrintedTypes {
  import opened CursorTree
  import opened Sequences
  import opened CppNames
  import opened TypeMangler
  import opened Arena

  // ---------------------------------------------------------------- spellings of trees

  predicate IsContainer(c: char) {
    c == 'a' || c == 'r' || c == 'e'
  }

  /** Containers have children, dict entries at least two, and nothing else has any. */
  predicate Printable(t: Tree<char>)
    decreases t, 0
  {
    && IsKind(t.tag)
    && (IsContainer(t.tag) <==> t.kids != [])
    && (t.tag == 'e' ==> |t.kids| > 1)
    && AllPrintable(t.kids)
  }

  predicate AllPrintable(ts: seq<Tree<char>>)
    decreases ts, 1
  {
    ts == [] || (Printable(ts[0]) && AllPrintable(ts[1..]))
  }

  lemma {:induction false} PrintableAt(ts: seq<Tree<char>>, i: nat)
    requires AllPrintable(ts) && i < |ts|
    ensures Printable(ts[i])
  {
    if i > 0 {
      PrintableAt(ts[1..], i - 1);
    }
  }

  /** The text of a tree: a dict entry shows its first and its last child. */
  function Text(t: Tree<char>): string
    requires Printable(t)
    decreases t, 0
  {
    Opening(t.tag) + Body(t)
  }

  /** What follows the opening text. */
  function Body(t: Tree<char>): string
    requires Printable(t)
    decreases t, -1
  {
    if t.tag == 'e' then
      PrintableAt(t.kids, 0);
      PrintableAt(t.kids, |t.kids| - 1);
      Text(t.kids[0]) + (", " + (Text(Last(t.kids)) + ">"))
    else if IsContainer(t.tag) then Texts(t.kids) + ">"
    else ""
  }

  /** The texts of several trees, separated by commas. */
  function Texts(ts: seq<Tree<char>>): string
    requires ts != [] && AllPrintable(ts)
    decreases ts, 1
  {
    if |ts| == 1 then Text(ts[0]) else Text(ts[0]) + "," + Texts(ts[1..])
  }

  // ---------------------------------------------------------------- the comma machine

  lemma {:induction false} PrintableFilled(t: Tree<char>)
    requires Printable(t)
    ensures PairsFilled(t)
    decreases t, 0
  {
    AllPrintableFilled(t.kids);
  }

  lemma {:induction false} AllPrintableFilled(ts: seq<Tree<char>>)
    requires AllPrintable(ts)
    ensures forall i | 0 <= i < |ts| :: PairsFilled(ts[i])
    decreases ts, 1
  {
    if ts != [] {
      PrintableFilled(ts[0]);
      AllPrintableFilled(ts[1..]);
      forall i | 0 <= i < |ts| ensures PairsFilled(ts[i]) {
        assert i > 0 ==> ts[i] == ts[1..][i - 1];
      }
    }
  }

  /** Streaming a type writes its text, behind a comma if the machine was armed, and leaves the machine armed. */
  lemma {:induction false} PrintsText(t: Tree<char>, st: CommaState)
    requires Printable(t) && PairsFilled(t) && st != NotArmed
    ensures PrintTree(t, st) == ((if st == Armed then "," else "") + Text(t), Armed)
    decreases t, 0
  {
    if t.tag == 'e' {
      PrintableAt(t.kids, 0);
      PrintableAt(t.kids, |t.kids| - 1);
      PrintsText(t.kids[0], NotRequired);
      PrintsText(Last(t.kids), NotRequired);
      PairText(Text(t.kids[0]), Text(Last(t.kids)));
      PairPrints(t, st, Text(t.kids[0]), Text(Last(t.kids)));
    } else if IsContainer(t.tag) {
      PrintsTexts(t.kids, NotRequired);
      GroupPrints(t, st);
    } else {
      assert Opening(t.tag) == BasicName(t.tag) != "";
      assert BasicName(t.tag) + "" == BasicName(t.tag);
      assert PrintTree(t, st) == Framed(st, Text(t));
    }
    FramedText(st, Text(t));
  }

  lemma GroupPrints(t: Tree<char>, st: CommaState)
    requires Printable(t) && PairsFilled(t) && IsContainer(t.tag) && t.tag != 'e'
    requires PrintKids(t.kids, NotRequired).0 == "" + Texts(t.kids)
    ensures PrintTree(t, st) == Framed(st, Text(t))
  {
    Group(Opening(t.tag), Texts(t.kids), ">");
    assert "" + Texts(t.kids) == Texts(t.kids);
  }

  lemma PairText(x: string, y: string)
    ensures "" + x == x && "" + y == y
    ensures "std::pair<" + x + ", " + y + ">" == "std::pair<" + (x + (", " + (y + ">")))
  {
  }

  lemma FramedText(st: CommaState, text: string)
    requires st != NotArmed
    ensures Framed(st, text) == ((if st == Armed then "," else "") + text, Armed)
  {
    assert text + "" == text;
    assert (if st == Armed then "," else "") + text + "" == (if st == Armed then "," else "") + text;
  }

  /** The children of a container come out as their texts joined by commas. */
  lemma {:induction false} PrintsTexts(ts: seq<Tree<char>>, st: CommaState)
    requires ts != [] && AllPrintable(ts) && st != NotArmed
    requires forall i | 0 <= i < |ts| :: PairsFilled(ts[i])
    ensures PrintKids(ts, st) == ((if st == Armed then "," else "") + Texts(ts), Armed)
    decreases ts, 1
  {
    var c := if st == Armed then "," else "";
    PrintsText(ts[0], st);
    if |ts| == 1 {
      assert ts[1..] == [];
      assert c + Text(ts[0]) + "" == c + Text(ts[0]);
    } else {
      PrintsTexts(ts[1..], Armed);
      Group(c, Text(ts[0]), "," + Texts(ts[1..]));
      Group(Text(ts[0]), ",", Texts(ts[1..]));
    }
  }

  // ---------------------------------------------------------------- reading a text back

  /** A tree as far as its text shows it. */
  function Shown(t: Tree<char>): Tree<char>
    requires Printable(t)
    decreases t, 0
  {
    if t.tag == 'e' then
      PrintableAt(t.kids, 0);
      PrintableAt(t.kids, |t.kids| - 1);
      Node(t.tag, [Shown(t.kids[0]), Shown(Last(t.kids))])
    else Node(t.tag, AllShown(t.kids))
  }

  function AllShown(ts: seq<Tree<char>>): seq<Tree<char>>
    requires AllPrintable(ts)
    decreases ts, 1
  {
    if ts == [] then [] else [Shown(ts[0])] + AllShown(ts[1..])
  }

  /** In front of any text, the texts of trees can be told apart, as far as they show the trees, and cut off. */
  lemma {:induction false} TextsArePrefixFree(t: Tree<char>, u: Tree<char>, r: string, q: string)
    requires Printable(t) && Printable(u) && Text(t) + r == Text(u) + q
    ensures Shown(t) == Shown(u) && r == q
    decreases t, 0
  {
    Group(Opening(t.tag), Body(t), r);
    Group(Opening(u.tag), Body(u), q);
    SameOpening(t.tag, u.tag, Body(t) + r, Body(u) + q);
    if t.tag == 'e' {
      PairsArePrefixFree(t, u, r, q);
    } else if IsContainer(t.tag) {
      Group(Texts(t.kids), ">", r);
      Group(Texts(u.kids), ">", q);
      JoinsArePrefixFree(t.kids, u.kids, r, q);
    } else {
      assert "" + r == r && "" + q == q;
    }
  }

  lemma {:induction false} PairsArePrefixFree(t: Tree<char>, u: Tree<char>, r: string, q: string)
    requires Printable(t) && Printable(u) && t.tag == 'e' == u.tag && Body(t) + r == Body(u) + q
    ensures Shown(t) == Shown(u) && r == q
    decreases t, -1
  {
    PrintableAt(t.kids, 0);
    PrintableAt(u.kids, 0);
    PrintableAt(t.kids, |t.kids| - 1);
    PrintableAt(u.kids, |u.kids| - 1);
    var x, y := Text(Last(t.kids)), Text(Last(u.kids));
    PairBody(Text(t.kids[0]), x, r);
    PairBody(Text(u.kids[0]), y, q);
    TextsArePrefixFree(t.kids[0], u.kids[0], ", " + (x + (">" + r)), ", " + (y + (">" + q)));
    DropFront(", ", x + (">" + r), y + (">" + q));
    TextsArePrefixFree(Last(t.kids), Last(u.kids), ">" + r, ">" + q);
    DropFront(">", r, q);
  }

  lemma PairBody(x: string, y: string, r: string)
    ensures x + (", " + (y + ">")) + r == x + (", " + (y + (">" + r)))
  {
  }

  /** What follows the first of several joined texts inside angle brackets. */
  function JoinTail(ts: seq<Tree<char>>, r: string): string
    requires ts != [] && AllPrintable(ts)
  {
    if |ts| == 1 then ">" + r else "," + (Texts(ts[1..]) + (">" + r))
  }

  lemma JoinUnfold(ts: seq<Tree<char>>, r: string)
    requires ts != [] && AllPrintable(ts)
    ensures Texts(ts) + (">" + r) == Text(ts[0]) + JoinTail(ts, r)
  {
    if |ts| > 1 {
      Group(Text(ts[0]) + ",", Texts(ts[1..]), ">" + r);
      Group(Text(ts[0]), ",", Texts(ts[1..]) + (">" + r));
    }
  }

  lemma JoinTails(ts: seq<Tree<char>>, us: seq<Tree<char>>, r: string, q: string)
    requires ts != [] && us != [] && AllPrintable(ts) && AllPrintable(us) && JoinTail(ts, r) == JoinTail(us, q)
    ensures |ts| == 1 <==> |us| == 1
    ensures if |ts| == 1 then r == q else Texts(ts[1..]) + (">" + r) == Texts(us[1..]) + (">" + q)
  {
    assert JoinTail(ts, r)[0] == JoinTail(us, q)[0];
    if |ts| == 1 {
      DropFront(">", r, q);
    } else {
      DropFront(",", Texts(ts[1..]) + (">" + r), Texts(us[1..]) + (">" + q));
    }
  }

  lemma {:induction false} JoinsArePrefixFree(ts: seq<Tree<char>>, us: seq<Tree<char>>, r: string, q: string)
    requires ts != [] && us != [] && AllPrintable(ts) && AllPrintable(us)
    requires Texts(ts) + (">" + r) == Texts(us) + (">" + q)
    ensures AllShown(ts) == AllShown(us) && r == q
    decreases ts, 1
  {
    JoinUnfold(ts, r);
    JoinUnfold(us, q);
    TextsArePrefixFree(ts[0], us[0], JoinTail(ts, r), JoinTail(us, q));
    JoinTails(ts, us, r, q);
    if |ts| > 1 {
      JoinsArePrefixFree(ts[1..], us[1..], r, q);
    } else {
      assert ts[1..] == [] && us[1..] == [];
    }
  }

  // ---------------------------------------------------------------- how much a text shows

  /** The number of elements. */
  function Size(t: Tree<char>): nat
    decreases t, 0
  {
    1 + SizeAll(t.kids)
  }

  function SizeAll(ts: seq<Tree<char>>): nat
    decreases ts, 1
  {
    if ts == [] then 0 else Size(ts[0]) + SizeAll(ts[1..])
  }

  lemma {:induction false} FlatSize(ts: seq<Tree<char>>, d: nat)
    ensures |FlatAll(ts, d)| == SizeAll(ts)
    decreases ts
  {
    if ts != [] {
      FlatSize(ts[0].kids, d + 1);
      FlatSize(ts[1..], d);
    }
  }

  lemma {:induction false} LastSize(ts: seq<Tree<char>>)
    requires ts != []
    ensures SizeAll(ts) >= Size(Last(ts)) && (|ts| > 1 ==> SizeAll(ts) > Size(Last(ts)))
  {
    if |ts| > 1 {
      LastSize(ts[1..]);
      assert Last(ts[1..]) == Last(ts);
    } else {
      assert ts[1..] == [];
    }
  }

  /** A text that shows as many elements as the tree has shows the tree. */
  lemma {:induction false} ShownSize(t: Tree<char>)
    requires Printable(t)
    ensures Size(Shown(t)) <= Size(t) && (Size(Shown(t)) == Size(t) ==> Shown(t) == t)
    decreases t, 0
  {
    if t.tag == 'e' {
      var ts := t.kids;
      PrintableAt(ts, 0);
      PrintableAt(ts, |ts| - 1);
      ShownSize(ts[0]);
      ShownSize(Last(ts));
      LastSize(ts[1..]);
      assert Last(ts[1..]) == Last(ts);
      TwoSizes(Shown(ts[0]), Shown(Last(ts)));
      if |ts| == 2 {
        assert ts == [ts[0], Last(ts)];
      }
    } else {
      AllShownSize(t.kids);
    }
  }

  lemma TwoSizes(t: Tree<char>, u: Tree<char>)
    ensures SizeAll([t, u]) == Size(t) + Size(u)
  {
    assert [u][1..] == [] && SizeAll([u]) == Size(u);
    assert [t, u][1..] == [u];
  }

  lemma {:induction false} AllShownSize(ts: seq<Tree<char>>)
    requires AllPrintable(ts)
    ensures SizeAll(AllShown(ts)) <= SizeAll(ts) && (SizeAll(AllShown(ts)) == SizeAll(ts) ==> AllShown(ts) == ts)
    decreases ts, 1
  {
    if ts != [] {
      ShownSize(ts[0]);
      AllShownSize(ts[1..]);
      SizeCons(Shown(ts[0]), AllShown(ts[1..]));
      SizeCons(ts[0], ts[1..]);
      assert ts == [ts[0]] + ts[1..];
    }
  }

  lemma SizeCons(t: Tree<char>, ts: seq<Tree<char>>)
    ensures SizeAll([t] + ts) == Size(t) + SizeAll(ts)
  {
    assert ([t] + ts)[1..] == ts;
  }
}
