/**
 detail::TypeMangler of the generator (src/core/dbus/generator.cpp:54-298): a signature is read character by
 character into a tree of elements under a `current` pointer, and printed as a C++ type.
 */
module TypeMangler {
  import opened CursorTree
  import opened Sequences
  import opened Arena
  import N = CppNames
  import M = Message

  // ---------------------------------------------------------------- what a character does

  /** An array is opened like a struct, but no character ever closes it. */
  function CharOps(c: char): seq<Op<char>> {
    match c
    case '(' => [Open('r')]
    case '{' => [Open('e')]
    case 'a' => [Open('a')]
    case ')' => [Close]
    case '}' => [Close]
    case _ => [Open(c), Close]
  }

  function StringOps(s: string): seq<Op<char>> {
    if s == "" then [] else CharOps(s[0]) + StringOps(s[1..])
  }

  lemma {:induction false} StringOpsConcat(s: string, t: string)
    ensures StringOps(s + t) == StringOps(s) + StringOps(t)
    decreases |s|
  {
    if s == "" {
      assert s + t == t;
    } else {
      assert (s + t)[1..] == s[1..] + t;
      StringOpsConcat(s[1..], t);
    }
  }

  // ---------------------------------------------------------------- printing

  datatype CommaState = NotRequired | NotArmed | Armed

  /** Streaming the three-state Comma: what it writes and its next state. */
  function Tick(st: CommaState): (string, CommaState) {
    match st
    case NotRequired => ("", NotArmed)
    case NotArmed => ("", Armed)
    case Armed => (",", NotArmed)
  }

  /** A text with the comma streamed before and after it. */
  function Framed(st: CommaState, text: string): (string, CommaState) {
    var (a, st1) := Tick(st);
    var (b, st2) := Tick(st1);
    (a + text + b, st2)
  }

  /** Every dict entry has children: its printer takes the front and the back one. */
  predicate PairsFilled(t: Tree<char>)
    decreases t
  {
    (t.tag == 'e' ==> t.kids != []) && forall i | 0 <= i < |t.kids| :: PairsFilled(t.kids[i])
  }

  function PrintTree(t: Tree<char>, st: CommaState): (string, CommaState)
    requires PairsFilled(t)
    decreases t, 0
  {
    if t.tag == M.INVALID then
      if |t.kids| > 1 then Framed(st, "std::tuple<" + PrintKids(t.kids, NotRequired).0 + ">")
      else
        var (c, st') := Tick(st);
        (PrintKids(t.kids, NotRequired).0 + c, st')
    else if t.tag == 'a' then Framed(st, "std::vector<" + PrintKids(t.kids, NotRequired).0 + ">")
    else if t.tag == 'r' then Framed(st, "std::tuple<" + PrintKids(t.kids, NotRequired).0 + ">")
    else if t.tag == 'e' then
      Framed(st, "std::pair<" + PrintTree(t.kids[0], NotRequired).0 + ", "
                 + PrintTree(Last(t.kids), NotRequired).0 + ">")
    else if N.BasicName(t.tag) != "" then Framed(st, N.BasicName(t.tag))
    else ("", st)
  }

  function PrintKids(ts: seq<Tree<char>>, st: CommaState): (string, CommaState)
    requires forall i | 0 <= i < |ts| :: PairsFilled(ts[i])
    decreases ts, 1
  {
    if ts == [] then ("", st)
    else
      var (s, st1) := PrintTree(ts[0], st);
      var (r, st2) := PrintKids(ts[1..], st1);
      (s + r, st2)
  }

  function PrintedType(t: Tree<char>): string
    requires PairsFilled(t)
  {
    if t.kids == [] then "void" else PrintTree(t, NotRequired).0
  }

  lemma {:induction false} PrintKidsSnoc(ts: seq<Tree<char>>, t: Tree<char>, st: CommaState)
    requires (forall i | 0 <= i < |ts| :: PairsFilled(ts[i])) && PairsFilled(t)
    ensures var p := PrintKids(ts, st);
            var q := PrintTree(t, p.1);
            PrintKids(ts + [t], st) == (p.0 + q.0, q.1)
    decreases |ts|
  {
    if ts == [] {
      PrintOneKid(t, st);
      assert ts + [t] == [t];
    } else {
      var x := PrintTree(ts[0], st);
      var p := PrintKids(ts[1..], x.1);
      assert (ts + [t])[1..] == ts[1..] + [t];
      PrintKidsSnoc(ts[1..], t, x.1);
      Group(x.0, p.0, PrintTree(t, p.1).0);
    }
  }

  lemma PrintOneKid(t: Tree<char>, st: CommaState)
    requires PairsFilled(t)
    ensures PrintKids([t], st) == (PrintTree(t, st).0, PrintTree(t, st).1)
    ensures "" + PrintTree(t, st).0 == PrintTree(t, st).0
  {
    assert [t][1..] == [];
    assert PrintTree(t, st).0 + "" == PrintTree(t, st).0;
  }

  class Comma {
    var state: CommaState

    constructor ()
      ensures state == NotRequired
    {
      state := NotRequired;
    }

    method Stream() returns (s: string)
      modifies this
      ensures (s, state) == Tick(old(state))
    {
      s := "";
      match state
      case NotRequired => state := NotArmed;
      case NotArmed => state := Armed;
      case Armed =>
        s := ",";
        state := NotArmed;
    }
  }

  // ---------------------------------------------------------------- the layout a string leads to

  function CharLayout(y: Layout<char>, c: char): (r: Layout<char>)
    requires y.Ok() && y.spine != []
    ensures r.Ok()
  {
    match c
    case '(' => GrowDownIsOpen(y, 'r'); y.Grow('r').Down()
    case '{' => GrowDownIsOpen(y, 'e'); y.Grow('e').Down()
    case 'a' => GrowDownIsOpen(y, 'a'); y.Grow('a').Down()
    case ')' => UpIsClose(y); y.Up()
    case '}' => UpIsClose(y); y.Up()
    case _ => GrowOk(y, c); y.Grow(c)
  }

  lemma CharLayoutRuns(y: Layout<char>, c: char)
    requires y.Ok() && y.spine != []
    ensures Safe(y.Built().depth, CharOps(c))
    ensures CharLayout(y, c).Built() == Run(y.Built(), CharOps(c))
  {
    match c
    case '(' => GrowDownIsOpen(y, 'r'); RunOne(y.Built(), Open('r'));
    case '{' => GrowDownIsOpen(y, 'e'); RunOne(y.Built(), Open('e'));
    case 'a' => GrowDownIsOpen(y, 'a'); RunOne(y.Built(), Open('a'));
    case ')' => UpIsClose(y); RunOne(y.Built(), Close);
    case '}' => UpIsClose(y); RunOne(y.Built(), Close);
    case _ => GrowOk(y, c); OpenThenClose(y.Built(), c);
  }

  /** Reading s from layout y leads to layout r, with no null cursor on the way. */
  ghost predicate Reads(y: Layout<char>, s: string, r: Layout<char>)
    requires y.Ok()
    decreases |s|
  {
    if s == "" then r == y else y.spine != [] && Reads(CharLayout(y, s[0]), s[1..], r)
  }

  lemma CharThenRest(y: Layout<char>, c: char, rest: seq<Op<char>>)
    requires y.Ok() && Safe(y.Built().depth, CharOps(c) + rest)
    ensures y.spine != [] && Safe(CharLayout(y, c).Built().depth, rest)
    ensures Run(y.Built(), CharOps(c) + rest) == Run(CharLayout(y, c).Built(), rest)
  {
    assert CharOps(c) != [];
    RunSplit(y.Built(), CharOps(c), rest);
    CharLayoutRuns(y, c);
  }

  /** A string without null cursor can be read, and builds what its operations build. */
  lemma {:induction false} ReadsRuns(y: Layout<char>, s: string) returns (r: Layout<char>)
    requires y.Ok() && Safe(y.Built().depth, StringOps(s))
    ensures r.Ok() && Reads(y, s, r) && r.Built() == Run(y.Built(), StringOps(s))
    decreases |s|
  {
    if s == "" {
      r := y;
    } else {
      CharThenRest(y, s[0], StringOps(s[1..]));
      r := ReadsRuns(CharLayout(y, s[0]), s[1..]);
    }
  }

  // ---------------------------------------------------------------- the mangler

  class TypeMangler {
    // State.  Every element sits at its place in the order of creation, and pointers to elements are such places:
    // `root` is 0, a null pointer is -1.
    var isVoid: bool
    var elements: seq<Cell<char>>
    var current: int
    ghost var spine: seq<nat>

    ghost function Placed(): Layout<char>
      reads this
    {
      Layout(elements, spine)
    }

    ghost predicate Valid()
      reads this
    {
      && Placed().Ok()
      && elements[0].tag == M.INVALID
      && current == (if spine == [] then -1 else Last(spine))
      && (isVoid <==> elements[0].kids == [])
    }

    /** The tree under `root` and the depth of `current` in it; depth -1 is a null `current`. */
    ghost function State(): Builder<char>
      requires Valid()
      reads this
    {
      Placed().Built()
    }

    constructor ()
      ensures Valid() && State() == Builder(Node(M.INVALID, []), 0)
    {
      isVoid, elements, current, spine := true, [Cell(M.INVALID, -1, [])], 0, [0];
    }

    /** update_for_type. */
    method UpdateForType(arg: char) returns (ok: bool)
      requires Valid() && (arg != M.INVALID ==> current != -1)
      modifies this
      ensures Valid() && current == old(current)
      ensures ok <==> arg != M.INVALID
      ensures Placed() == if ok then old(Placed()).Grow(arg) else old(Placed())
    {
      if arg == M.INVALID { return false; }
      GrowOk(Placed(), arg);
      var e := |elements|;
      isVoid := false;
      var parent := elements[current].(kids := elements[current].kids + [e]);
      elements := elements[current := parent] + [Cell(arg, current, [])];
      ok := true;
    }

    /** update_for_array_start, update_for_struct_start and update_for_dict_entry_start. */
    method Descend()
      requires Valid() && current != -1 && elements[current].kids != []
      modifies this
      ensures Valid() && Placed() == old(Placed()).Down()
    {
      DownOk(Placed());
      current := Last(elements[current].kids);
      spine := spine + [current];
    }

    /** update_for_struct_end and update_for_dict_entry_end. */
    method Ascend()
      requires Valid() && current != -1
      modifies this
      ensures Valid() && Placed() == old(Placed()).Up()
    {
      UpIsClose(Placed());
      current := elements[current].parent;
      spine := spine[..|spine| - 1];
    }

    /** update: one character of a signature. */
    method Update(c: char) returns (ok: bool)
      requires Valid() && (c != M.INVALID ==> current != -1)
      modifies this
      ensures Valid()
      ensures ok <==> c != M.INVALID
      ensures Placed() == if ok then CharLayout(old(Placed()), c) else old(Placed())
    {
      match c
      case '(' =>
        ok := UpdateForType('r');
        Descend();
      case ')' =>
        Ascend();
        ok := true;
      case '{' =>
        ok := UpdateForType('e');
        Descend();
      case '}' =>
        Ascend();
        ok := true;
      case 'a' =>
        ok := UpdateForType('a');
        Descend();
      case _ =>
        ok := UpdateForType(c);
    }

    /** update_from_signature: stops at the first NUL. */
    method UpdateFromSignature(s: string) returns (ok: bool)
      requires Valid() && Safe(State().depth, StringOps(M.CString(s)))
      modifies this
      ensures Valid()
      ensures ok <==> M.INVALID !in s
      ensures State() == Run(old(State()), StringOps(M.CString(s)))
    {
      ghost var end := ReadsRuns(Placed(), M.CString(s));
      ok := Consume(s, end);
    }

    /** The loop of update_from_signature. */
    method Consume(s: string, ghost end: Layout<char>) returns (ok: bool)
      requires Valid() && Reads(Placed(), M.CString(s), end)
      modifies this
      ensures Valid() && Placed() == end
      ensures ok <==> M.INVALID !in s
    {
      var i := 0;
      while i < |s|
        invariant 0 <= i <= |s| && Valid()
        invariant M.INVALID !in s[..i]
        invariant Reads(Placed(), M.CString(s[i..]), end)
      {
        CStringStep(s, i);
        var r := Update(s[i]);
        if !r {
          return false;
        }
        i := i + 1;
      }
      ok := true;
    }

    /** print, of the element at place i. */
    method Print(i: nat, comma: Comma) returns (s: string)
      requires Valid() && i < |elements| && PairsFilled(TreeAt(elements, i))
      modifies comma
      ensures (s, comma.state) == PrintTree(TreeAt(elements, i), old(comma.state))
      decreases |elements| - i, 2
    {
      s := "";
      var argument := elements[i].tag;
      if argument == M.INVALID {
        if |elements[i].kids| > 1 {
          s := PrintGroup(i, comma, "std::tuple<");
        } else {
          var body := PrintChildren(i);
          var c := comma.Stream();
          s := body + c;
        }
      } else if argument == 'a' {
        s := PrintGroup(i, comma, "std::vector<");
      } else if argument == 'r' {
        s := PrintGroup(i, comma, "std::tuple<");
      } else if argument == 'e' {
        s := PrintPair(i, comma);
      } else if N.BasicName(argument) != "" {
        var c := comma.Stream();
        var d := comma.Stream();
        s := c + N.BasicName(argument) + d;
      }
    }

    /** The cases of print that wrap the children. */
    method PrintGroup(i: nat, comma: Comma, opening: string) returns (s: string)
      requires Valid() && i < |elements| && PairsFilled(TreeAt(elements, i))
      modifies comma
      ensures (s, comma.state) ==
              Framed(old(comma.state), opening + PrintKids(TreeAt(elements, i).kids, NotRequired).0 + ">")
      decreases |elements| - i, 1
    {
      var c := comma.Stream();
      var body := PrintChildren(i);
      var d := comma.Stream();
      s := c + (opening + body + ">") + d;
    }

    /** The dict entry case of print: front and back child, each with a comma of its own. */
    method PrintPair(i: nat, comma: Comma) returns (s: string)
      requires Valid() && i < |elements| && PairsFilled(TreeAt(elements, i)) && elements[i].tag == 'e'
      modifies comma
      ensures (s, comma.state) == PrintTree(TreeAt(elements, i), old(comma.state))
      decreases |elements| - i, 1
    {
      var kids := elements[i].kids;
      ghost var t := TreeAt(elements, i);
      var c := comma.Stream();
      var front := PrintAlone(i, 0);
      var back := PrintAlone(i, |kids| - 1);
      var d := comma.Stream();
      s := c + ("std::pair<" + front + ", " + back + ">") + d;
      PairPrints(t, old(comma.state), front, back);
    }

    /** A child with a comma of its own. */
    method PrintAlone(i: nat, k: nat) returns (s: string)
      requires Valid() && i < |elements| && PairsFilled(TreeAt(elements, i)) && k < |elements[i].kids|
      ensures s == PrintTree(TreeAt(elements, i).kids[k], NotRequired).0
      decreases |elements| - i, 0
    {
      KidFilled(elements, i, k);
      var own := new Comma();
      s := Print(elements[i].kids[k], own);
    }

    /** The children in a row, with a comma scoped to them. */
    method PrintChildren(i: nat) returns (s: string)
      requires Valid() && i < |elements| && PairsFilled(TreeAt(elements, i))
      ensures s == PrintKids(TreeAt(elements, i).kids, NotRequired).0
      decreases |elements| - i, 0
    {
      var scoped := new Comma();
      var kids := elements[i].kids;
      ghost var ts := TreeAt(elements, i).kids;
      s := "";
      for k := 0 to |kids|
        invariant (s, scoped.state) == PrintKids(ts[..k], NotRequired)
      {
        KidFilled(elements, i, k);
        PrintKidsSnoc(ts[..k], ts[k], NotRequired);
        TakeSnoc(ts, k);
        var p := Print(kids[k], scoped);
        s := s + p;
      }
      assert ts[..|ts|] == ts;
    }

    /** print_type. */
    method PrintType() returns (s: string)
      requires Valid() && PairsFilled(State().tree)
      ensures s == PrintedType(State().tree)
    {
      if isVoid {
        s := "void";
      } else {
        var comma := new Comma();
        s := Print(0, comma);
      }
    }
  }

  lemma PairPrints(t: Tree<char>, st: CommaState, front: string, back: string)
    requires PairsFilled(t) && t.tag == 'e'
    requires front == PrintTree(t.kids[0], NotRequired).0 && back == PrintTree(Last(t.kids), NotRequired).0
    ensures PrintTree(t, st) == Framed(st, "std::pair<" + front + ", " + back + ">")
  {
  }

  lemma KidFilled(elements: seq<Cell<char>>, i: nat, k: nat)
    requires Wf(elements) && i < |elements| && k < |elements[i].kids| && PairsFilled(TreeAt(elements, i))
    ensures i < elements[i].kids[k] < |elements|
    ensures TreeAt(elements, i).kids[k] == TreeAt(elements, elements[i].kids[k])
    ensures PairsFilled(TreeAt(elements, elements[i].kids[k]))
  {
    var t := TreeAt(elements, i);
    assert PairsFilled(t.kids[k]);
  }

  lemma CStringStep(s: string, i: nat)
    requires i < |s|
    ensures s[i] != M.INVALID ==> M.CString(s[i..]) != "" && M.CString(s[i..])[0] == s[i]
    ensures s[i] != M.INVALID ==> M.CString(s[i..])[1..] == M.CString(s[i + 1..])
    ensures s[i] == M.INVALID ==> M.CString(s[i..]) == ""
  {
    assert s[i..][1..] == s[i + 1..];
  }
}
