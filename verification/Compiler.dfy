/**
 The introspection compiler's context (src/core/dbus/compiler.cpp:34-118) driven by the parser's event loop
 (src/core/dbus/introspection_parser.cpp:312-354), and the tree of elements the generator is handed, whose children
 are kept in order of kind (include/core/dbus/compiler.h:97-101, 134-155).
 */
module Compiler {
  import opened Arena
  import opened CursorTree
  import opened Introspection
  import opened KindOrder
  import opened Sequences
  import opened Wrappers

  // ---------------------------------------------------------------- trees in order of kind

  function RankOf(t: Tree<Entity>): int {
    Rank(t.tag)
  }

  /** The same tree with every child list put in order of kind, children of a kind in their old order. */
  function Arranged(t: Tree<Entity>): (r: Tree<Entity>)
    ensures r.tag == t.tag
    decreases t, 0
  {
    Tree.Node(t.tag, Ordered(ArrangedAll(t.kids), RankOf))
  }

  function ArrangedAll(ts: seq<Tree<Entity>>): (r: seq<Tree<Entity>>)
    ensures |r| == |ts| && forall i | 0 <= i < |r| :: r[i].tag == ts[i].tag
    decreases ts, 1
  {
    if ts == [] then [] else [Arranged(ts[0])] + ArrangedAll(ts[1..])
  }

  lemma {:induction false} ArrangedAt(ts: seq<Tree<Entity>>, i: nat)
    requires i < |ts|
    ensures ArrangedAll(ts)[i] == Arranged(ts[i])
  {
    if i > 0 {
      ArrangedAt(ts[1..], i - 1);
    }
  }

  /** Nodes stand in front of interfaces, these in front of methods, signals, properties, arguments and annotations. */
  predicate MayPrecede(a: Entity, b: Entity) {
    match a
    case Node(_) => true
    case Interface(_) => !b.Node?
    case Method(_) => !b.Node? && !b.Interface?
    case Signal(_) => b.Signal? || b.Property? || b.Argument? || b.Annotation?
    case Property(_, _, _) => b.Property? || b.Argument? || b.Annotation?
    case Argument(_, _, _) => b.Argument? || b.Annotation?
    case Annotation(_, _) => b.Annotation?
  }

  /** So it is among the children of every element. */
  ghost predicate InOrder(t: Tree<Entity>)
    decreases t
  {
    && (forall i, j | 0 <= i < j < |t.kids| :: MayPrecede(t.kids[i].tag, t.kids[j].tag))
    && forall i | 0 <= i < |t.kids| :: InOrder(t.kids[i])
  }

  lemma {:induction false} ArrangedInOrder(t: Tree<Entity>)
    ensures InOrder(Arranged(t))
    decreases t
  {
    var us := ArrangedAll(t.kids);
    var vs := Ordered(us, RankOf);
    OrderedSorts(us, RankOf);
    forall i, j | 0 <= i < j < |vs| ensures MayPrecede(vs[i].tag, vs[j].tag) {
      assert RankOf(vs[i]) <= RankOf(vs[j]);
    }
    forall i | 0 <= i < |vs| ensures InOrder(vs[i]) {
      assert vs[i] in multiset(vs);
      assert vs[i] in us;
      var k :| 0 <= k < |us| && us[k] == vs[i];
      ArrangedAt(t.kids, k);
      ArrangedInOrder(t.kids[k]);
    }
  }

  // The depths of all elements, summed: arranging keeps it, and an element that lands too deep raises it.

  function Weight(t: Tree<Entity>, d: nat): nat
    decreases t, 0
  {
    d + WeightAll(t.kids, d + 1)
  }

  function WeightAll(ts: seq<Tree<Entity>>, d: nat): nat
    decreases ts, 1
  {
    if ts == [] then 0 else Weight(ts[0], d) + WeightAll(ts[1..], d)
  }

  function Depths(l: seq<(Entity, nat)>): nat {
    if l == [] then 0 else l[0].1 + Depths(l[1..])
  }

  lemma {:induction false} DepthsConcat(x: seq<(Entity, nat)>, y: seq<(Entity, nat)>)
    ensures Depths(x + y) == Depths(x) + Depths(y)
  {
    if x == [] {
      assert x + y == y;
    } else {
      assert (x + y)[1..] == x[1..] + y;
      DepthsConcat(x[1..], y);
    }
  }

  lemma WeightCons(t: Tree<Entity>, ts: seq<Tree<Entity>>, d: nat)
    ensures WeightAll([t] + ts, d) == Weight(t, d) + WeightAll(ts, d)
  {
    assert ([t] + ts)[1..] == ts;
  }

  lemma {:induction false} PlaceWeight(ts: seq<Tree<Entity>>, t: Tree<Entity>, d: nat)
    ensures WeightAll(Place(ts, t, RankOf), d) == WeightAll(ts, d) + Weight(t, d)
    decreases |ts|
  {
    if ts == [] {
      WeightCons(t, [], d);
      assert [t] + [] == [t];
    } else if RankOf(t) < RankOf(ts[0]) {
      WeightCons(t, ts, d);
    } else {
      PlaceWeight(ts[1..], t, d);
      WeightCons(ts[0], Place(ts[1..], t, RankOf), d);
    }
  }

  lemma {:induction false} WeightSnoc(ts: seq<Tree<Entity>>, t: Tree<Entity>, d: nat)
    ensures WeightAll(ts + [t], d) == WeightAll(ts, d) + Weight(t, d)
  {
    if ts == [] {
      WeightCons(t, [], d);
      assert [] + [t] == [t] + [];
    } else {
      assert (ts + [t])[1..] == ts[1..] + [t];
      WeightSnoc(ts[1..], t, d);
    }
  }

  lemma {:induction false} OrderedWeight(ts: seq<Tree<Entity>>, d: nat)
    ensures WeightAll(Ordered(ts, RankOf), d) == WeightAll(ts, d)
    decreases |ts|
  {
    if ts != [] {
      var n := |ts| - 1;
      OrderedWeight(ts[..n], d);
      PlaceWeight(Ordered(ts[..n], RankOf), ts[n], d);
      WeightSnoc(ts[..n], ts[n], d);
      assert ts == ts[..n] + [ts[n]];
    }
  }

  lemma {:induction false} ArrangedWeight(t: Tree<Entity>, d: nat)
    ensures Weight(Arranged(t), d) == Weight(t, d)
    decreases t, 0
  {
    ArrangedAllWeight(t.kids, d + 1);
    OrderedWeight(ArrangedAll(t.kids), d + 1);
  }

  lemma {:induction false} ArrangedAllWeight(ts: seq<Tree<Entity>>, d: nat)
    ensures WeightAll(ArrangedAll(ts), d) == WeightAll(ts, d)
    decreases ts, 1
  {
    if ts != [] {
      ArrangedWeight(ts[0], d);
      ArrangedAllWeight(ts[1..], d);
      WeightCons(Arranged(ts[0]), ArrangedAll(ts[1..]), d);
    }
  }

  lemma {:induction false} FlatDepths(ts: seq<Tree<Entity>>, d: nat)
    ensures Depths(FlatAll(ts, d)) == WeightAll(ts, d)
    decreases ts
  {
    if ts != [] {
      FlatDepths(ts[0].kids, d + 1);
      FlatDepths(ts[1..], d);
      DepthsConcat(Flat(ts[0], d), FlatAll(ts[1..], d));
    }
  }

  /** Landing at depth e or below, elements weigh no less than at d <= e, and as much only if none is displaced. */
  lemma {:induction false} LandingWeight(xs: seq<Doc<Entity>>, d: nat, e: nat)
    requires d <= e
    ensures Depths(Landing(xs, e)) >= WeightAll(StripAll(xs), d)
    ensures Depths(Landing(xs, e)) == WeightAll(StripAll(xs), d) <==> xs == [] || (d == e && Clean(xs))
    decreases xs
  {
    if xs != [] {
      LandingWeight(xs[0].kids, d + 1, e + 1);
      LandingWeight(xs[1..], d, e + Stickies(xs[0]));
      LandingDepths(xs, e);
      StripWeight(xs, d);
      CleanUnfold(xs);
    }
  }

  lemma CleanUnfold(xs: seq<Doc<Entity>>)
    requires xs != []
    ensures Clean(xs) <==> Clean(xs[0].kids) && Clean(xs[1..]) && (Stickies(xs[0]) == 0 || xs[1..] == [])
  {
  }

  lemma LandingDepths(xs: seq<Doc<Entity>>, e: nat)
    requires xs != []
    ensures Depths(Landing(xs, e)) ==
            e + Depths(Landing(xs[0].kids, e + 1)) + Depths(Landing(xs[1..], e + Stickies(xs[0])))
  {
    var h, k := [(xs[0].tag, e)], Landing(xs[0].kids, e + 1);
    DepthsConcat(h + k, Landing(xs[1..], e + Stickies(xs[0])));
    assert (h + k)[1..] == k;
  }

  lemma StripWeight(xs: seq<Doc<Entity>>, d: nat)
    requires xs != []
    ensures WeightAll(StripAll(xs), d) == d + WeightAll(StripAll(xs[0].kids), d + 1) + WeightAll(StripAll(xs[1..]), d)
  {
    assert StripAll(xs)[1..] == StripAll(xs[1..]);
  }

  /** Arranging hides nothing: the arranged trees agree exactly when no element starts after a property has ended. */
  lemma ArrangedExactly(x: Doc<Entity>)
    ensures Safe(0, OpsAll(x.kids))
    ensures Arranged(Run(Builder(Tree.Node(x.tag, []), 0), OpsAll(x.kids)).tree) == Arranged(Strip(x)) <==>
            Clean(x.kids)
  {
    var b := Builder(Tree.Node(x.tag, []), 0);
    GrownFaithful(x.tag, x.kids);
    DocsLand(b, x.kids);
    var t, u := Run(b, OpsAll(x.kids)).tree, Strip(x);
    ArrangedWeight(t, 0);
    ArrangedWeight(u, 0);
    LandingWeight(x.kids, 1, 1);
    FlatDepths(t.kids, 1);
    assert Flat(b.tree, 0) == [(x.tag, 0)];
    assert FlatAll(t.kids, 1) == Flat(t, 0)[1..] == Landing(x.kids, 1);
  }

  /** A property and a method side by side: the method ends up inside the property. */
  lemma PropertyThenMethod(a: Attributes)
    requires a.access == "read"
    ensures var inside := [EmptyElement("property", a), EmptyElement("method", a)];
            var xs := [Element("node", a, [Element("interface", a, inside)])];
            var ms := [Doc(Property(a.name, a.typ, Read), [], true), Doc(Method(a.name), [], false)];
            var x := Doc(Entity.Node(a.name), [Doc(Interface(a.name), ms, false)], false);
            && SingleRooted(xs, x) && Safe(0, OpsAll(x.kids))
            && Arranged(Run(Builder(Tree.Node(x.tag, []), 0), OpsAll(x.kids)).tree) != Arranged(Strip(x))
  {
    var p, m := EmptyElement("property", a), EmptyElement("method", a);
    var i := Element("interface", a, [p, m]);
    var ms := [Doc(Property(a.name, a.typ, Read), [], true), Doc(Method(a.name), [], false)];
    OneSplice(p);
    OneSplice(m);
    TwoSplices(p, m);
    assert Splice(p) + Splice(m) == ms;
    OneSplice(i);
    OneSplice(Element("node", a, [i]));
    assert ms[1..] != [] && !Clean(ms);
    ArrangedExactly(Doc(Entity.Node(a.name), [Doc(Interface(a.name), ms, false)], false));
  }

  // ---------------------------------------------------------------- element tables

  function TagsOf(a: seq<Cell<Entity>>): seq<Entity> {
    seq(|a|, i requires 0 <= i < |a| => a[i].tag)
  }

  /** The key by which an element, known by its place, is ordered among its siblings. */
  function KindAt(tags: seq<Entity>): nat -> int {
    (i: nat) => if i < |tags| then Rank(tags[i]) else 0
  }

  /** The elements as they are and the same elements with children in the order of their creation. */
  ghost predicate Agree(a: seq<Cell<Entity>>, made: seq<Cell<Entity>>) {
    && |a| == |made|
    && (forall i {:trigger a[i]} | 0 <= i < |a| :: a[i].tag == made[i].tag && a[i].parent == made[i].parent)
    && (forall i {:trigger a[i].kids} | 0 <= i < |a| :: a[i].kids == Ordered(made[i].kids, KindAt(TagsOf(made))))
  }

  lemma OrderedSame(ks: seq<nat>, key: nat -> int, yek: nat -> int)
    requires forall i | 0 <= i < |ks| :: key(ks[i]) == yek(ks[i])
    ensures Ordered(ks, key) == Ordered(ks, yek)
  {
    var same := (x: nat, y: nat) => x == y;
    OrderedPaired(ks, ks, key, yek, same);
    assert Paired(Ordered(ks, key), Ordered(ks, yek), key, yek, same);
  }

  lemma OldKinds(made: seq<Cell<Entity>>, c: nat, t: Entity, i: nat)
    requires Wf(made) && c < |made| && i < |made|
    ensures Ordered(made[i].kids, KindAt(TagsOf(Append(made, c, t)))) == Ordered(made[i].kids, KindAt(TagsOf(made)))
  {
    OrderedSame(made[i].kids, KindAt(TagsOf(Append(made, c, t))), KindAt(TagsOf(made)));
  }

  /** A new element, placed among its siblings by kind. */
  function Adopt(a: seq<Cell<Entity>>, c: nat, t: Entity): seq<Cell<Entity>>
    requires c < |a|
  {
    var b := a + [Cell(t, c, [])];
    b[c := a[c].(kids := Place<nat>(a[c].kids, |a|, KindAt(TagsOf(b))))]
  }

  lemma AdoptTags(a: seq<Cell<Entity>>, made: seq<Cell<Entity>>, c: nat, t: Entity)
    requires Agree(a, made) && c < |a|
    ensures TagsOf(a + [Cell(t, c, [])]) == TagsOf(Append(made, c, t))
  {
  }

  lemma AdoptKids(a: seq<Cell<Entity>>, made: seq<Cell<Entity>>, c: nat, t: Entity, i: nat)
    requires Agree(a, made) && Wf(made) && c < |a| && i < |a|
    ensures Adopt(a, c, t)[i].kids == Ordered(Append(made, c, t)[i].kids, KindAt(TagsOf(Append(made, c, t))))
  {
    var key := KindAt(TagsOf(Append(made, c, t)));
    AdoptTags(a, made, c, t);
    OldKinds(made, c, t, i);
    assert a[i].kids == Ordered(made[i].kids, key);
    if i == c {
      OrderedSnoc<nat>(made[c].kids, |a|, key);
    }
  }

  lemma AdoptAgrees(a: seq<Cell<Entity>>, made: seq<Cell<Entity>>, c: nat, t: Entity)
    requires Agree(a, made) && Wf(made) && c < |a|
    ensures Agree(Adopt(a, c, t), Append(made, c, t))
  {
    var b, m := Adopt(a, c, t), Append(made, c, t);
    forall i | 0 <= i < |b| ensures b[i].kids == Ordered(m[i].kids, KindAt(TagsOf(m))) {
      if i < |a| {
        AdoptKids(a, made, c, t, i);
      }
    }
  }

  /** Children come after their parent, so a tree can be read off. */
  ghost predicate Descends(a: seq<Cell<Entity>>) {
    forall i, k | 0 <= i < |a| && 0 <= k < |a[i].kids| :: i < a[i].kids[k] < |a|
  }

  /** The tree under an element, children in the order in which the container lists them. */
  function View(a: seq<Cell<Entity>>, i: nat): (t: Tree<Entity>)
    requires Descends(a) && i < |a|
    ensures t.tag == a[i].tag && |t.kids| == |a[i].kids|
    decreases |a| - i
  {
    Tree.Node(a[i].tag, seq(|a[i].kids|, k requires 0 <= k < |a[i].kids| => View(a, a[i].kids[k])))
  }

  lemma AgreeDescends(a: seq<Cell<Entity>>, made: seq<Cell<Entity>>)
    requires Agree(a, made) && Wf(made)
    ensures Descends(a)
  {
    forall i, k | 0 <= i < |a| && 0 <= k < |a[i].kids| ensures i < a[i].kids[k] < |a| {
      OrderedSorts(made[i].kids, KindAt(TagsOf(made)));
      assert a[i].kids[k] in multiset(a[i].kids);
      assert a[i].kids[k] in made[i].kids;
    }
  }

  /** What the container lists is the arrangement of what was created. */
  lemma {:induction false} ViewArranged(a: seq<Cell<Entity>>, made: seq<Cell<Entity>>, i: nat)
    requires Agree(a, made) && Wf(made) && Descends(a) && i < |a|
    ensures View(a, i) == Arranged(TreeAt(made, i))
    decreases |a| - i
  {
    var ks, ts := made[i].kids, ArrangedAll(TreeAt(made, i).kids);
    var key := KindAt(TagsOf(made));
    var shows := (k: nat, t: Tree<Entity>) => i < k < |a| && t == View(a, k);
    forall k | 0 <= k < |ks| ensures shows(ks[k], ts[k]) && key(ks[k]) == RankOf(ts[k]) {
      ViewArranged(a, made, ks[k]);
      ArrangedAt(TreeAt(made, i).kids, k);
    }
    OrderedPaired(ks, ts, key, RankOf, shows);
    ListedPairs(a, i, Ordered(ks, key), Ordered(ts, RankOf), key, shows);
  }

  lemma ListedPairs(a: seq<Cell<Entity>>, i: nat, ks: seq<nat>, ts: seq<Tree<Entity>>,
                    key: nat -> int, shows: (nat, Tree<Entity>) -> bool)
    requires Descends(a) && i < |a| && a[i].kids == ks
    requires Paired(ks, ts, key, RankOf, shows)
    requires forall k: nat, t | shows(k, t) :: i < k < |a| && t == View(a, k)
    ensures View(a, i).kids == ts
  {
    forall k | 0 <= k < |ts| ensures View(a, i).kids[k] == ts[k] {
      assert shows(ks[k], ts[k]);
    }
  }

  // ---------------------------------------------------------------- the context and the event loop

  /** An element is opened: the first one is the root, any other goes under `current`. */
  function Opened(s: Built, t: Entity): Built
    requires s.Rooted? ==> s.b.Valid() && s.b.depth >= 0
  {
    match s
    case Nothing => Rooted(Builder(Tree.Node(t, []), 0))
    case Rooted(b) => Rooted(Step(b, Open(t)))
  }

  function Closed(s: Built): Built
    requires s.Rooted? && s.b.Valid() && s.b.depth >= 0
  {
    Rooted(Step(s.b, Close))
  }

  lemma BuildSnoc(u: seq<Op<Entity>>, op: Op<Entity>)
    requires NullSafe(u + [op])
    ensures NullSafe(u) && (u != [] ==> Build(u).b.depth >= 0)
    ensures u == [] ==> op.Open?
    ensures Build(u + [op]) == if op.Open? then Opened(Build(u), op.tag) else Closed(Build(u))
  {
    if u == [] {
      assert ([] + [op])[1..] == [];
    } else {
      assert (u + [op])[1..] == u[1..] + [op];
      var b := Builder(Tree.Node(u[0].tag, []), 0);
      RunSplit(b, u[1..], [op]);
      RunOne(Run(b, u[1..]), op);
    }
  }

  datatype Outcome = Done(ok: bool) | Threw

  /** The events up to the first one whose handler throws. */
  function FinePart(es: seq<Event>): (r: seq<Event>)
    ensures AllFine(r) && |r| <= |es| && r == es[..|r|]
    ensures |r| < |es| ==> !Fine(es[|r|])
  {
    if es == [] || !Fine(es[0]) then [] else [es[0]] + FinePart(es[1..])
  }

  class Context {
    // Every element sits at its place in the order of creation, and pointers to elements are such places: `root` is 0
    // once there is one, a null pointer is -1.
    var elements: seq<Cell<Entity>>
    var current: int
    ghost var made: seq<Cell<Entity>>  // the same elements with children in the order of creation
    ghost var spine: seq<nat>

    ghost predicate Valid()
      reads this
    {
      if elements == [] then made == [] && spine == [] && current == -1
      else
        && Layout(made, spine).Ok()
        && Agree(elements, made)
        && current == (if spine == [] then -1 else Last(spine))
    }

    ghost function State(): Built
      requires Valid()
      reads this
    {
      if elements == [] then Nothing else Rooted(Layout(made, spine).Built())
    }

    /** reset. */
    method Reset()
      modifies this
      ensures Valid() && State() == Nothing
    {
      elements, current, made, spine := [], -1, [], [];
    }

    constructor ()
      ensures Valid() && State() == Nothing
    {
      elements, current, made, spine := [], -1, [], [];
    }

    /** adjust_down. */
    method AdjustDown(t: Entity)
      requires Valid() && (State().Rooted? ==> State().b.depth >= 0)
      modifies this
      ensures Valid() && State() == Opened(old(State()), t)
    {
      if elements == [] {
        elements, current, made, spine := [Cell(t, -1, [])], 0, [Cell(t, -1, [])], [0];
        FirstElement(t);
      } else {
        Adopted(elements, made, spine, t);
        var element := |elements|;
        elements := Adopt(elements, current, t);
        made, spine := Append(made, current, t), spine + [element];
        current := element;
      }
    }

    /** adjust_up. */
    method AdjustUp()
      requires Valid() && State().Rooted? && State().b.depth >= 0
      modifies this
      ensures Valid() && State() == Closed(old(State()))
    {
      UpIsClose(Layout(made, spine));
      current := elements[current].parent;
      spine := spine[..|spine| - 1];
    }

    /** One event of the loop, whose handler does not throw. */
    method Handle(e: Event)
      requires Fine(e) && Valid() && CanTake(State(), e)
      modifies this
      ensures Valid() && State() == Taken(old(State()), e)
    {
      match e
      case Start(tag, attributes, empty) =>
        if Recognised(tag) {
          AdjustDown(EntityOf(tag, attributes).value);
        }
        if empty && Closing(tag) {
          AdjustUp();
        }
      case End(tag) =>
        if Closing(tag) {
          AdjustUp();
        }
      case Ignored =>
    }

    /** invoke_for, on the events of a file; the reader ends with an error if the file is not well-formed. */
    method InvokeFor(events: seq<Event>, wellFormed: bool) returns (r: Outcome)
      requires Valid() && State() == Nothing && NullSafe(StreamOps(FinePart(events)))
      modifies this
      ensures Valid() && State() == Build(StreamOps(FinePart(events)))
      ensures r == if AllFine(events) then Done(wellFormed) else Threw
    {
      LoopStart(events);
      var i := 0;
      while i < |events|
        invariant 0 <= i <= |events| && Valid()
        invariant Reached(events, i, State())
      {
        LoopStep(events, i, State());
        if events[i].Start? && Recognised(events[i].tag) && EntityOf(events[i].tag, events[i].attributes) == None {
          assert !Fine(events[i]);
          return Threw;
        }
        assert Fine(events[i]);
        Handle(events[i]);
        i := i + 1;
      }
      LoopEnd(events, State());
      r := Done(wellFormed);
    }

    /** process_introspection_file, up to handing the tree to the generator. */
    method Process(xs: seq<Xml>) returns (r: Outcome)
      requires AllFine(EventsAll(xs)) && Through(SpliceAll(xs))
      modifies this
      ensures Valid() && r == Done(true)
      ensures elements != [] && Descends(elements) && View(elements, 0) == Arranged(Grown(SpliceAll(xs)))
      ensures InOrder(View(elements, 0))
      ensures forall x | SpliceAll(xs) == [x] :: View(elements, 0) == Arranged(Strip(x)) <==> Clean(x.kids)
      ensures current == -1 <==> StickiesAll(SpliceAll(xs)) == 0
    {
      Reset();
      RootGiven(xs);
      AllEventsSplice(xs);
      GrownDepth(SpliceAll(xs));
      WholeStream(EventsAll(xs));
      r := InvokeFor(EventsAll(xs), true);
      AgreeDescends(elements, made);
      ViewArranged(elements, made, 0);
      ArrangedInOrder(Grown(SpliceAll(xs)));
      forall x | SpliceAll(xs) == [x] ensures View(elements, 0) == Arranged(Strip(x)) <==> Clean(x.kids) {
        GrownSingle(x);
        ArrangedExactly(x);
      }
    }
  }

  lemma WholeStream(events: seq<Event>)
    requires AllFine(events)
    ensures FinePart(events) == events
  {
  }

  /** The first i events have been handled, none of their handlers threw, and they have led to s. */
  ghost predicate Reached(events: seq<Event>, i: nat, s: Built) {
    && i <= |FinePart(events)|
    && NullSafe(StreamOps(events[..i]))
    && s == Build(StreamOps(events[..i]))
  }

  lemma LoopStart(events: seq<Event>)
    ensures Reached(events, 0, Nothing)
  {
  }

  lemma LoopEnd(events: seq<Event>, s: Built)
    requires Reached(events, |events|, s)
    ensures AllFine(events) && NullSafe(StreamOps(FinePart(events))) && s == Build(StreamOps(FinePart(events)))
  {
    assert events[..|events|] == events == FinePart(events);
  }

  lemma LoopStep(events: seq<Event>, i: nat, s: Built)
    requires i < |events| && Reached(events, i, s) && NullSafe(StreamOps(FinePart(events)))
    ensures Fine(events[i]) ==> CanTake(s, events[i]) && Reached(events, i + 1, Taken(s, events[i]))
    ensures !Fine(events[i]) ==> s == Build(StreamOps(FinePart(events))) && !AllFine(events)
  {
    if Fine(events[i]) {
      FineNext(events, i);
      TakeNext(events[..i], events[i]);
    } else {
      FineFront(events, i);
    }
  }

  lemma FineNext(events: seq<Event>, i: nat)
    requires i < |events| && i <= |FinePart(events)| && Fine(events[i]) && NullSafe(StreamOps(FinePart(events)))
    ensures i < |FinePart(events)| && NullSafe(StreamOps(events[..i + 1]))
    ensures events[..i + 1] == events[..i] + [events[i]]
  {
    var n := |FinePart(events)|;
    StreamFront(FinePart(events), i + 1);
    TakeFront(events, n, i + 1);
    TakeSnoc(events, i);
  }

  lemma FineFront(events: seq<Event>, i: nat)
    requires i < |events| && i <= |FinePart(events)| && !Fine(events[i])
    ensures FinePart(events) == events[..i]
  {
  }

  lemma Adopted(a: seq<Cell<Entity>>, made: seq<Cell<Entity>>, spine: seq<nat>, t: Entity)
    requires Layout(made, spine).Ok() && Agree(a, made) && spine != []
    ensures var y := Layout(Append(made, Last(spine), t), spine + [|made|]);
            && y.Ok() && y.Built() == Step(Layout(made, spine).Built(), Open(t))
            && Agree(Adopt(a, Last(spine), t), y.cells)
  {
    var y := Layout(made, spine);
    GrowDownIsOpen(y, t);
    AdoptAgrees(a, made, Last(spine), t);
    assert y.Grow(t).Down() == Layout(Append(made, Last(spine), t), spine + [|made|]);
  }

  /** Whether an event can be handled without following a null `current`, and what it does then. */
  predicate Ready(s: Built) {
    s.Rooted? ==> s.b.depth >= 0
  }

  predicate CanTake(s: Built, e: Event) {
    match e
    case Start(tag, _, _) => Recognised(tag) ==> Ready(s)
    case End(tag) => Closing(tag) ==> s.Rooted? && Ready(s)
    case Ignored => true
  }

  function Taken(s: Built, e: Event): Built
    requires Fine(e) && CanTake(s, e) && (s.Rooted? ==> s.b.Valid())
  {
    match e
    case Start(tag, attributes, empty) =>
      if Recognised(tag) then
        var o := Opened(s, EntityOf(tag, attributes).value);
        if empty && Closing(tag) then Closed(o) else o
      else s
    case End(tag) => if Closing(tag) then Closed(s) else s
    case Ignored => s
  }

  lemma BuildEvent(u: seq<Op<Entity>>, e: Event)
    requires Fine(e) && NullSafe(u) && NullSafe(u + EventOps(e))
    ensures CanTake(Build(u), e) && Build(u + EventOps(e)) == Taken(Build(u), e)
  {
    if e.Start? && Recognised(e.tag) {
      EventSteps(e, u);
      var o := Open(EntityOf(e.tag, e.attributes).value);
      BuildSnoc(u, o);
      if e.empty && Closing(e.tag) {
        BuildSnoc(u + [o], Close);
      }
    } else if e.End? && Closing(e.tag) {
      BuildSnoc(u, Close);
    } else {
      assert u + [] == u;
    }
  }

  lemma SafeFront(u: seq<Op<Entity>>, v: seq<Op<Entity>>)
    requires NullSafe(u + v)
    ensures NullSafe(u)
  {
    if u != [] {
      assert (u + v)[1..] == u[1..] + v;
      SafeSplit(0, u[1..], v);
    }
  }

  lemma TakeNext(es: seq<Event>, e: Event)
    requires Fine(e) && NullSafe(StreamOps(es + [e]))
    ensures NullSafe(StreamOps(es)) && CanTake(Build(StreamOps(es)), e)
    ensures Build(StreamOps(es + [e])) == Taken(Build(StreamOps(es)), e)
  {
    StreamOpsConcat(es, [e]);
    OneEvent(e);
    SafeFront(StreamOps(es), EventOps(e));
    BuildEvent(StreamOps(es), e);
  }

  lemma StreamFront(es: seq<Event>, n: nat)
    requires n <= |es| && NullSafe(StreamOps(es))
    ensures NullSafe(StreamOps(es[..n]))
  {
    assert es == es[..n] + es[n..];
    StreamOpsConcat(es[..n], es[n..]);
    SafeFront(StreamOps(es[..n]), StreamOps(es[n..]));
  }

  lemma FirstElement(t: Entity)
    ensures var made := [Cell(t, -1, [])];
            Layout(made, [0]).Ok() && Agree(made, made) && Layout(made, [0]).Built() == Builder(Tree.Node(t, []), 0)
  {
  }

  lemma EventSteps(e: Event, u: seq<Op<Entity>>)
    requires e.Start? && Fine(e) && Recognised(e.tag) && NullSafe(u + EventOps(e))
    ensures var o := Open(EntityOf(e.tag, e.attributes).value);
            && NullSafe(u + [o])
            && u + EventOps(e) == if e.empty && Closing(e.tag) then (u + [o]) + [Close] else u + [o]
  {
    var o := Open(EntityOf(e.tag, e.attributes).value);
    if e.empty && Closing(e.tag) {
      assert EventOps(e) == [o] + [Close];
      Group(u, [o], [Close]);
      BuildSnoc(u + [o], Close);
    } else {
      assert EventOps(e) == [o] + [];
      assert u + EventOps(e) == u + [o];
    }
  }
}
