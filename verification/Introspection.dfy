/**
 Introspection documents (D-Bus Specification, "Introspection Data Format") as the parser reads them: a stream of
 start and end events of XML elements, of which seven are recognised (src/core/dbus/introspection_parser.cpp:87-354),
 and the operations they perform on the compiler's tree (src/core/dbus/compiler.cpp:34-118).
 */
module Introspection {
  import opened CursorTree
  import opened Sequences
  import opened Wrappers

  /** The attributes of an element; those that are missing read as "". */
  datatype Attributes = Attributes(name: string, typ: string, direction: string, access: string, value: string)

  datatype Direction = Context | In | Out

  datatype Access = Read | Write | ReadWrite

  /** What an element of the compiler's tree carries. */
  datatype Entity =
    | Node(name: string)
    | Interface(name: string)
    | Method(name: string)
    | Signal(name: string)
    | Property(name: string, typ: string, access: Access)
    | Argument(name: string, typ: string, direction: Direction)
    | Annotation(name: string, value: string)

  /** The position of an entity's kind in Compiler::Element::Type. */
  function Rank(e: Entity): int {
    match e
    case Node(_) => 0
    case Interface(_) => 1
    case Method(_) => 2
    case Signal(_) => 3
    case Property(_, _, _) => 4
    case Argument(_, _, _) => 5
    case Annotation(_, _) => 6
  }

  /** The keys of `vtable`. */
  predicate Recognised(tag: string) {
    tag == "property" || Closing(tag)
  }

  /** The keys of `vtable_done`: there is none for a property. */
  predicate Closing(tag: string) {
    tag == "node" || tag == "interface" || tag == "method" || tag == "arg" || tag == "annotation" || tag == "signal"
  }

  /** The entity a recognised start tag announces; None where the handler throws. */
  function EntityOf(tag: string, a: Attributes): Option<Entity> {
    if tag == "node" then Some(Entity.Node(a.name))
    else if tag == "interface" then Some(Interface(a.name))
    else if tag == "method" then Some(Method(a.name))
    else if tag == "signal" then Some(Signal(a.name))
    else if tag == "annotation" then Some(Annotation(a.name, a.value))
    else if tag == "arg" then
      if a.direction == "" then Some(Argument(a.name, a.typ, Context))
      else if a.direction == "in" then Some(Argument(a.name, a.typ, In))
      else if a.direction == "out" then Some(Argument(a.name, a.typ, Out))
      else None
    else if tag == "property" then
      if a.access == "read" then Some(Property(a.name, a.typ, Read))
      else if a.access == "write" then Some(Property(a.name, a.typ, Write))
      else if a.access == "readwrite" then Some(Property(a.name, a.typ, ReadWrite))
      else None
    else None
  }

  // How the D-Bus Specification, "Introspection Data Format", writes entities down.

  function TagOf(e: Entity): string {
    match e
    case Node(_) => "node"
    case Interface(_) => "interface"
    case Method(_) => "method"
    case Signal(_) => "signal"
    case Property(_, _, _) => "property"
    case Argument(_, _, _) => "arg"
    case Annotation(_, _) => "annotation"
  }

  /** An argument without a direction is for both. */
  function DirectionWord(d: Direction): string {
    match d
    case Context => ""
    case In => "in"
    case Out => "out"
  }

  function AccessWord(x: Access): string {
    match x
    case Read => "read"
    case Write => "write"
    case ReadWrite => "readwrite"
  }

  predicate Says(a: Attributes, e: Entity) {
    && a.name == e.name
    && match e
       case Property(_, typ, access) => a.typ == typ && a.access == AccessWord(access)
       case Argument(_, typ, direction) => a.typ == typ && a.direction == DirectionWord(direction)
       case Annotation(_, value) => a.value == value
       case _ => true
  }

  /** The parser reads an entity exactly where it is written down. */
  lemma EntityExactly(t: string, a: Attributes, e: Entity)
    ensures EntityOf(t, a) == Some(e) <==> t == TagOf(e) && Says(a, e)
  {
  }

  /** It knows the tags of all entities and no others, and misses the end of properties only. */
  lemma TagsKnown(t: string)
    ensures Recognised(t) <==> exists e: Entity :: t == TagOf(e)
    ensures Closing(t) <==> exists e: Entity :: t == TagOf(e) && !e.Property?
  {
    var es := [Entity.Node(""), Interface(""), Method(""), Signal(""), Argument("", "", Context), Annotation("", ""),
               Property("", "", Read)];
    if Recognised(t) {
      assert t == TagOf(es[0]) || t == TagOf(es[1]) || t == TagOf(es[2]) || t == TagOf(es[3]) || t == TagOf(es[4]) ||
             t == TagOf(es[5]) || t == TagOf(es[6]);
    }
  }

  /** A handler throws exactly on a recognised start tag that says no entity: an argument with another direction, or a
      property with another access. */
  lemma ThrowsExactly(t: string, a: Attributes, empty: bool)
    ensures Fine(Start(t, a, empty)) <==>
            !(t == "arg" && a.direction != "" && a.direction != "in" && a.direction != "out") &&
            !(t == "property" && a.access != "read" && a.access != "write" && a.access != "readwrite")
  {
  }

  // ---------------------------------------------------------------- documents and their events

  /** An XML document; Other stands for text, comments and the like. */
  datatype Xml =
    | Element(tag: string, attributes: Attributes, kids: seq<Xml>)
    | EmptyElement(tag: string, attributes: Attributes)
    | Other

  datatype Event =
    | Start(tag: string, attributes: Attributes, empty: bool)
    | End(tag: string)
    | Ignored

  function EventsOf(x: Xml): seq<Event>
    decreases x, 0
  {
    match x
    case Element(t, a, ks) => [Start(t, a, false)] + EventsAll(ks) + [End(t)]
    case EmptyElement(t, a) => [Start(t, a, true)]
    case Other => [Ignored]
  }

  function EventsAll(xs: seq<Xml>): seq<Event>
    decreases xs, 1
  {
    if xs == [] then [] else EventsOf(xs[0]) + EventsAll(xs[1..])
  }

  /** No handler throws on this event. */
  predicate Fine(e: Event) {
    e.Start? && Recognised(e.tag) ==> EntityOf(e.tag, e.attributes).Some?
  }

  predicate AllFine(es: seq<Event>) {
    forall i | 0 <= i < |es| :: Fine(es[i])
  }

  /** The element a start tag opens, if any. */
  function Opening(tag: string, a: Attributes): seq<Op<Entity>> {
    match EntityOf(tag, a)
    case Some(x) => [Open(x)]
    case None => []
  }

  /** What one event does to the tree and its cursor when its handler does not throw. */
  function EventOps(e: Event): seq<Op<Entity>> {
    match e
    case Start(t, a, empty) => Opening(t, a) + (if empty && Closing(t) then [Close] else [])
    case End(t) => if Closing(t) then [Close] else []
    case Ignored => []
  }

  function StreamOps(es: seq<Event>): seq<Op<Entity>> {
    if es == [] then [] else EventOps(es[0]) + StreamOps(es[1..])
  }

  lemma FineConcat(es: seq<Event>, fs: seq<Event>)
    ensures AllFine(es + fs) <==> AllFine(es) && AllFine(fs)
  {
    if AllFine(es + fs) {
      forall i | 0 <= i < |es| ensures Fine(es[i]) { assert es[i] == (es + fs)[i]; }
      forall i | 0 <= i < |fs| ensures Fine(fs[i]) { assert fs[i] == (es + fs)[|es| + i]; }
    }
  }

  lemma {:induction false} StreamOpsConcat(es: seq<Event>, fs: seq<Event>)
    ensures StreamOps(es + fs) == StreamOps(es) + StreamOps(fs)
    decreases |es|
  {
    if es == [] {
      assert es + fs == fs;
    } else {
      assert (es + fs)[1..] == es[1..] + fs;
      StreamOpsConcat(es[1..], fs);
      Group(EventOps(es[0]), StreamOps(es[1..]), StreamOps(fs));
    }
  }

  /** What the document says: unrecognised elements give way to their contents, and a property is never closed. */
  function Splice(x: Xml): seq<Doc<Entity>>
    requires AllFine(EventsOf(x))
    decreases x, 0
  {
    match x
    case Element(t, a, ks) =>
      ElementFine(t, a, ks);
      if Recognised(t) then [Doc(EntityOf(t, a).value, SpliceAll(ks), !Closing(t))] else SpliceAll(ks)
    case EmptyElement(t, a) =>
      assert Fine(EventsOf(x)[0]);
      if Recognised(t) then [Doc(EntityOf(t, a).value, [], !Closing(t))] else []
    case Other => []
  }

  function SpliceAll(xs: seq<Xml>): seq<Doc<Entity>>
    requires AllFine(EventsAll(xs))
    decreases xs, 1
  {
    if xs == [] then []
    else
      ForestFine(xs);
      Splice(xs[0]) + SpliceAll(xs[1..])
  }

  lemma ElementFine(t: string, a: Attributes, ks: seq<Xml>)
    requires AllFine(EventsOf(Element(t, a, ks)))
    ensures Fine(Start(t, a, false)) && AllFine(EventsAll(ks))
  {
    var h := [Start(t, a, false)];
    FineConcat(h + EventsAll(ks), [End(t)]);
    FineConcat(h, EventsAll(ks));
    assert Fine(h[0]);
  }

  lemma ForestFine(xs: seq<Xml>)
    requires xs != [] && AllFine(EventsAll(xs))
    ensures AllFine(EventsOf(xs[0])) && AllFine(EventsAll(xs[1..]))
  {
    FineConcat(EventsOf(xs[0]), EventsAll(xs[1..]));
  }

  lemma {:induction false} OpsConcat<L>(xs: seq<Doc<L>>, ys: seq<Doc<L>>)
    ensures OpsAll(xs + ys) == OpsAll(xs) + OpsAll(ys)
    decreases |xs|
  {
    if xs == [] {
      assert xs + ys == ys;
    } else {
      assert (xs + ys)[1..] == xs[1..] + ys;
      OpsConcat(xs[1..], ys);
      Group(OpsOf(xs[0]), OpsAll(xs[1..]), OpsAll(ys));
    }
  }

  lemma OneEvent(e: Event)
    ensures StreamOps([e]) == EventOps(e)
  {
    assert [e][1..] == [];
    assert EventOps(e) + [] == EventOps(e);
  }

  lemma OneDocument<L>(x: Doc<L>)
    ensures OpsAll([x]) == OpsOf(x)
  {
    assert [x][1..] == [];
    assert OpsOf(x) + [] == OpsOf(x);
  }

  lemma ElementOps(t: string, a: Attributes, ks: seq<Xml>)
    ensures StreamOps(EventsOf(Element(t, a, ks))) ==
            EventOps(Start(t, a, false)) + StreamOps(EventsAll(ks)) + EventOps(End(t))
  {
    StreamOpsConcat([Start(t, a, false)] + EventsAll(ks), [End(t)]);
    StreamOpsConcat([Start(t, a, false)], EventsAll(ks));
    OneEvent(Start(t, a, false));
    OneEvent(End(t));
  }

  /** The events of an element do what its spliced document does. */
  lemma {:induction false} EventsSplice(x: Xml)
    requires AllFine(EventsOf(x))
    ensures StreamOps(EventsOf(x)) == OpsAll(Splice(x))
    decreases x, 0
  {
    match x
    case Element(t, a, ks) =>
      ElementFine(t, a, ks);
      ElementOps(t, a, ks);
      AllEventsSplice(ks);
      if Recognised(t) {
        OneDocument(Splice(x)[0]);
        assert Splice(x) == [Splice(x)[0]];
        assert [Open(EntityOf(t, a).value)] + [] == [Open(EntityOf(t, a).value)];
      } else {
        assert [] + StreamOps(EventsAll(ks)) + [] == StreamOps(EventsAll(ks));
      }
    case EmptyElement(t, a) =>
      assert Fine(EventsOf(x)[0]);
      OneEvent(Start(t, a, true));
      if Recognised(t) {
        OneDocument(Splice(x)[0]);
        assert Splice(x) == [Splice(x)[0]];
      }
    case Other => OneEvent(Ignored);
  }

  lemma {:induction false} AllEventsSplice(xs: seq<Xml>)
    requires AllFine(EventsAll(xs))
    ensures StreamOps(EventsAll(xs)) == OpsAll(SpliceAll(xs))
    decreases xs, 1
  {
    if xs != [] {
      ForestFine(xs);
      EventsSplice(xs[0]);
      AllEventsSplice(xs[1..]);
      StreamOpsConcat(EventsOf(xs[0]), EventsAll(xs[1..]));
      OpsConcat(Splice(xs[0]), SpliceAll(xs[1..]));
    }
  }

  // ---------------------------------------------------------------- the tree that results

  /** The compiler's context: no root yet, or a tree with its cursor. */
  datatype Built = Nothing | Rooted(b: Builder<Entity>)

  /** No operation dereferences a null `current`. */
  ghost predicate NullSafe(ops: seq<Op<Entity>>) {
    ops == [] || (ops[0].Open? && Safe(0, ops[1..]))
  }

  /** The first element opened becomes the root. */
  function Build(ops: seq<Op<Entity>>): (r: Built)
    requires NullSafe(ops)
    ensures r.Rooted? ==> r.b.Valid()
  {
    if ops == [] then Nothing else Rooted(Run(Builder(Tree.Node(ops[0].tag, []), 0), ops[1..]))
  }

  /** The operations of the first of several documents, after its root is there. */
  function RootOps(x: Doc<Entity>): seq<Op<Entity>> {
    OpsAll(x.kids) + (if x.sticky then [] else [Close])
  }

  lemma ForestOps(xs: seq<Doc<Entity>>)
    requires xs != []
    ensures OpsAll(xs) == [Open(xs[0].tag)] + (RootOps(xs[0]) + OpsAll(xs[1..]))
    ensures OpsAll(xs)[1..] == RootOps(xs[0]) + OpsAll(xs[1..])
  {
    var x := xs[0];
    assert OpsOf(x) == [Open(x.tag)] + RootOps(x);
    Group([Open(x.tag)], RootOps(x), OpsAll(xs[1..]));
  }

  lemma RootDepth(x: Doc<Entity>)
    ensures Safe(0, RootOps(x)) && Opens(RootOps(x)) - Closes(RootOps(x)) == Stickies(x) - 1
  {
    var c: seq<Op<Entity>> := if x.sticky then [] else [Close];
    OpsSafe(x.kids, 0);
    OneOp<Entity>(Close);
    SafeConcat(0, OpsAll(x.kids), c);
  }

  /**
   A null `current` is never followed exactly when there is at most one outermost recognised element, or the first
   of them holds a property.
   */
  lemma NullSafety(xs: seq<Doc<Entity>>)
    ensures NullSafe(OpsAll(xs)) <==> |xs| <= 1 || Stickies(xs[0]) > 0
  {
    if xs != [] {
      ForestOps(xs);
      RootDepth(xs[0]);
      if |xs| == 1 {
        assert RootOps(xs[0]) + OpsAll(xs[1..]) == RootOps(xs[0]);
      } else {
        RestSafe(xs[1..], RootOps(xs[0]), Stickies(xs[0]) - 1);
      }
    }
  }

  lemma RestSafe(xs: seq<Doc<Entity>>, r: seq<Op<Entity>>, d: int)
    requires xs != [] && Safe(0, r) && Opens(r) - Closes(r) == d
    ensures Safe(0, r + OpsAll(xs)) <==> d >= 0
  {
    if d >= 0 {
      OpsSafe(xs, d);
      SafeConcat(0, r, OpsAll(xs));
    } else if Safe(0, r + OpsAll(xs)) {
      SafeSplit(0, r, OpsAll(xs));
      ForestOps(xs);
    }
  }

  /** One outermost recognised element, or several with a property in the first. */
  predicate Through(xs: seq<Doc<Entity>>) {
    |xs| == 1 || (|xs| > 1 && Stickies(xs[0]) > 0)
  }

  /** Exactly then there is a root to hand to the generator, and a null `current` is never followed on the way. */
  lemma RootGiven(xs: seq<Xml>)
    requires AllFine(EventsAll(xs))
    ensures var ops := StreamOps(EventsAll(xs));
            NullSafe(ops) && Build(ops).Rooted? <==> Through(SpliceAll(xs))
  {
    AllEventsSplice(xs);
    NullSafety(SpliceAll(xs));
    if SpliceAll(xs) != [] {
      ForestOps(SpliceAll(xs));
    }
  }

  /** Nothing is recognised here, so the root is null. */
  lemma NothingRecognised(a: Attributes)
    ensures var xs := [EmptyElement("unit", a)];
            var ops := StreamOps(EventsAll(xs));
            AllFine(EventsAll(xs)) && NullSafe(ops) && Build(ops) == Nothing
  {
    OneSplice(EmptyElement("unit", a));
    AllEventsSplice([EmptyElement("unit", a)]);
  }

  /** The second of two nodes beside each other follows the null `current` that the first one leaves. */
  lemma TwoNodes(a: Attributes)
    ensures var n := EmptyElement("node", a);
            var xs := [Element("unit", a, [n, n])];
            AllFine(EventsAll(xs)) && !NullSafe(StreamOps(EventsAll(xs)))
  {
    var n := EmptyElement("node", a);
    OneSplice(n);
    TwoSplices(n, n);
    OneSplice(Element("unit", a, [n, n]));
    var xs := [Element("unit", a, [n, n])];
    AllEventsSplice(xs);
    NullSafety(SpliceAll(xs));
  }

  /** The tree that is handed over. */
  function Grown(xs: seq<Doc<Entity>>): Tree<Entity>
    requires Through(xs)
  {
    NullSafety(xs);
    ForestOps(xs);
    Build(OpsAll(xs)).b.tree
  }

  lemma GrownDepth(xs: seq<Doc<Entity>>)
    requires Through(xs)
    ensures NullSafe(OpsAll(xs)) && Build(OpsAll(xs)).Rooted? && Build(OpsAll(xs)).b.depth == StickiesAll(xs) - 1
  {
    NullSafety(xs);
    ForestOps(xs);
    RootDepth(xs[0]);
    OpsSafe(xs[1..], 0);
    CountsConcat(RootOps(xs[0]), OpsAll(xs[1..]));
    RunDepth(Builder(Tree.Node(xs[0].tag, []), 0), OpsAll(xs)[1..]);
  }

  lemma GrownSingle(x: Doc<Entity>)
    ensures Safe(0, OpsAll(x.kids))
    ensures Grown([x]) == Run(Builder(Tree.Node(x.tag, []), 0), OpsAll(x.kids)).tree
  {
    ForestOps([x]);
    assert [x][1..] == [];
    RootRun(x);
    assert RootOps(x) + OpsAll([x][1..]) == RootOps(x);
  }

  /** Documents with one outermost recognised element. */
  ghost predicate SingleRooted(xs: seq<Xml>, x: Doc<Entity>) {
    AllFine(EventsAll(xs)) && SpliceAll(xs) == [x]
  }

  lemma RootRun(x: Doc<Entity>)
    ensures Safe(0, RootOps(x)) && Safe(0, OpsAll(x.kids))
    ensures var b := Builder(Tree.Node(x.tag, []), 0);
            Run(b, RootOps(x)) == Builder(Run(b, OpsAll(x.kids)).tree, Stickies(x) - 1)
  {
    var b := Builder(Tree.Node(x.tag, []), 0);
    RootDepth(x);
    RunDepth(b, RootOps(x));
    DocsDepth(b, x.kids);
    if x.sticky {
      assert RootOps(x) == OpsAll(x.kids);
    } else {
      RunSplit(b, OpsAll(x.kids), [Close]);
      RunOne(Run(b, OpsAll(x.kids)), Close);
    }
  }

  lemma BuiltRoot(xs: seq<Xml>, x: Doc<Entity>)
    requires SingleRooted(xs, x)
    ensures NullSafe(StreamOps(EventsAll(xs))) && Safe(0, OpsAll(x.kids))
    ensures Build(StreamOps(EventsAll(xs))) ==
            Rooted(Builder(Run(Builder(Tree.Node(x.tag, []), 0), OpsAll(x.kids)).tree, Stickies(x) - 1))
  {
    AllEventsSplice(xs);
    GrownSingle(x);
    GrownDepth([x]);
    assert [x][1..] == [];
  }

  /**
   Reading a document with one outermost recognised element never follows a null `current`; it builds the document's
   own tree, unrecognised elements spliced out, exactly when no recognised element starts after a property has
   ended; and it leaves `current` one level down per property, null when there is none.
   */
  lemma BuiltExactly(xs: seq<Xml>, x: Doc<Entity>)
    requires SingleRooted(xs, x)
    ensures NullSafe(StreamOps(EventsAll(xs))) && Build(StreamOps(EventsAll(xs))).Rooted?
    ensures Build(StreamOps(EventsAll(xs))).b.tree == Strip(x) <==> Clean(x.kids)
    ensures Build(StreamOps(EventsAll(xs))).b.depth == Stickies(x) - 1
  {
    BuiltRoot(xs, x);
    GrownFaithful(x.tag, x.kids);
  }

  lemma OneSplice(x: Xml)
    requires AllFine(EventsOf(x)) ||
             (x.Element? && AllFine(EventsAll(x.kids)) && Fine(Start(x.tag, x.attributes, false)))
    ensures AllFine(EventsAll([x])) && AllFine(EventsOf(x)) && SpliceAll([x]) == Splice(x)
  {
    assert [x][1..] == [];
    assert EventsAll([x]) == EventsOf(x) + [] == EventsOf(x);
  }

  lemma TwoSplices(x: Xml, y: Xml)
    requires AllFine(EventsOf(x)) && AllFine(EventsOf(y))
    ensures AllFine(EventsAll([x, y])) && SpliceAll([x, y]) == Splice(x) + Splice(y)
  {
    OneSplice(y);
    assert [x, y][1..] == [y];
    FineConcat(EventsOf(x), EventsAll([y]));
  }

  /** A document without property is built faithfully and leaves `current` null. */
  lemma PropertyFreeBuilt(xs: seq<Xml>, x: Doc<Entity>)
    requires SingleRooted(xs, x) && Stickies(x) == 0
    ensures NullSafe(StreamOps(EventsAll(xs)))
    ensures Build(StreamOps(EventsAll(xs))) == Rooted(Builder(Strip(x), -1))
  {
    BuiltExactly(xs, x);
    PropertyFree(x.kids);
  }

  lemma {:induction false} PropertyFree(xs: seq<Doc<Entity>>)
    requires StickiesAll(xs) == 0
    ensures Clean(xs)
    decreases xs
  {
    if xs != [] {
      PropertyFree(xs[0].kids);
      PropertyFree(xs[1..]);
    }
  }

  // ---------------------------------------------------------------- every prefix

  /** Recognised elements started, properties included. */
  function Started(es: seq<Event>): nat {
    if es == [] then 0 else (if es[0].Start? && Recognised(es[0].tag) then 1 else 0) + Started(es[1..])
  }

  /** Recognised elements ended, with an end tag or by being empty; properties never are. */
  function Ended(es: seq<Event>): nat {
    if es == [] then 0
    else (if (es[0].End? || (es[0].Start? && es[0].empty)) && Closing(es[0].tag) then 1 else 0) + Ended(es[1..])
  }

  /** The entities announced, in order. */
  function Announced(es: seq<Event>): seq<Entity> {
    if es == [] then []
    else
      (if es[0].Start? then (match EntityOf(es[0].tag, es[0].attributes) case Some(x) => [x] case None => []) else [])
      + Announced(es[1..])
  }

  lemma EventCounts(e: Event)
    requires Fine(e)
    ensures Opens(EventOps(e)) == Started([e]) && Closes(EventOps(e)) == Ended([e])
    ensures Tags(EventOps(e)) == Announced([e])
  {
    assert [e][1..] == [];
    var x := EventOps(e);
    OneOp<Entity>(Close);
    if e.Start? && Recognised(e.tag) {
      var o := Open(EntityOf(e.tag, e.attributes).value);
      OneOp(o);
      CountsConcat([o], [Close]);
      TagsConcat([o], [Close]);
      assert x == [o] || x == [o] + [Close];
    } else {
      assert x == [] || x == [Close];
    }
  }

  lemma {:induction false} StreamCounts(es: seq<Event>)
    requires AllFine(es)
    ensures Opens(StreamOps(es)) == Started(es) && Closes(StreamOps(es)) == Ended(es)
    ensures Tags(StreamOps(es)) == Announced(es)
    decreases |es|
  {
    if es != [] {
      EventCounts(es[0]);
      StreamCounts(es[1..]);
      CountsConcat(EventOps(es[0]), StreamOps(es[1..]));
      TagsConcat(EventOps(es[0]), StreamOps(es[1..]));
      assert [es[0]][1..] == [];
    }
  }

  lemma BuildCounts(ops: seq<Op<Entity>>)
    requires NullSafe(ops) && ops != []
    ensures Build(ops).b.depth == Opens(ops) - Closes(ops) - 1
    ensures First(Flat(Build(ops).b.tree, 0)) == Tags(ops)
  {
    var b := Builder(Tree.Node(ops[0].tag, []), 0);
    RunDepth(b, ops[1..]);
    RunTags(b, ops[1..]);
    var f: seq<(Entity, nat)> := [(ops[0].tag, 0)];
    assert Flat(b.tree, 0) == f && f[1..] == [];
  }

  /**
   After every prefix of a document's events in which something recognised has started: each recognised start has
   contributed one element of the tree, in preorder; the depth of `current` counts the starts less the ends (so
   properties weigh in for good), and as long as the document goes on to do anything, `current` is not null.
   */
  lemma PrefixBuilt(xs: seq<Xml>, x: Doc<Entity>, n: nat)
    requires SingleRooted(xs, x) && n <= |EventsAll(xs)| && Started(EventsAll(xs)[..n]) > 0
    ensures var es := EventsAll(xs)[..n];
            var ops := StreamOps(es);
            && NullSafe(ops) && Build(ops).Rooted?
            && First(Flat(Build(ops).b.tree, 0)) == Announced(es)
            && Build(ops).b.depth == Started(es) - Ended(es) - 1
            && (StreamOps(EventsAll(xs)[n..]) != [] ==> Build(ops).b.depth >= 0)
  {
    var es, fs := EventsAll(xs)[..n], EventsAll(xs)[n..];
    assert EventsAll(xs) == es + fs;
    BuiltExactly(xs, x);
    FineConcat(es, fs);
    StreamOpsConcat(es, fs);
    StreamCounts(es);
    SafePrefix(StreamOps(es), StreamOps(fs));
    BuildCounts(StreamOps(es));
  }

  lemma SafePrefix(u: seq<Op<Entity>>, v: seq<Op<Entity>>)
    requires NullSafe(u + v) && Opens(u) > 0
    ensures u != [] && NullSafe(u) && (v != [] ==> Opens(u) - Closes(u) - 1 >= 0)
  {
    assert (u + v)[1..] == u[1..] + v;
    SafeSplit(0, u[1..], v);
  }
}
