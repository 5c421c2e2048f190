/**
 The structure of the headers the generator writes (src/core/dbus/generator.cpp:642-891): which lines open a namespace
 or a struct and which close one, as the visitors are applied to the compiler's tree
 (include/core/dbus/compiler.h:101-117).
 */
module Generator {
  import opened CursorTree
  import opened Introspection
  import opened HeaderText
  import opened Sequences

  /** A line that ends in an opening brace, and one that is a closing brace; other lines are balanced. */
  datatype Line = Opening(head: string) | Closing

  /** Opening less closing braces. */
  function Depth(ls: seq<Line>): int {
    if ls == [] then 0 else (if ls[0].Opening? then 1 else -1) + Depth(ls[1..])
  }

  /** What the visitors keep: counters that are never reset, and the buffer. */
  datatype Page = Page(namespaces: nat, properties: nat, signals: nat, lines: seq<Line>)

  const BLANK := Page(0, 0, 0, [])

  function Namespaces(ns: seq<string>): seq<Line> {
    if ns == [] then [] else [Opening("namespace " + ns[0])] + Namespaces(ns[1..])
  }

  function Closings(n: nat): seq<Line> {
    if n == 0 then [] else [Closing] + Closings(n - 1)
  }

  function Spaces(name: string): seq<string> {
    var cs := Components(name);
    cs[..|cs| - 1]
  }

  function Visited(p: Page, e: Entity): Page {
    match e
    case Node(_) => p
    case Interface(name) =>
      var cs := Components(name);
      p.(namespaces := p.namespaces + |Spaces(name)|,
         lines := p.lines + Namespaces(Spaces(name)) + [Opening("struct " + cs[|cs| - 1])])
    case Property(name, _, _) =>
      p.(properties := p.properties + 1,
         lines := p.lines + (if p.signals > 0 then [Closing] else [])
                  + (if p.properties == 0 then [Opening("struct Properties")] else []) + [Opening("struct " + name)])
    case Method(name) => p.(lines := p.lines + [Opening("struct " + name)])
    case Signal(name) =>
      p.(signals := p.signals + 1,
         lines := p.lines + (if p.signals == 0 then [Opening("struct Signals")] else []) + [Opening("struct " + name)])
    case Argument(_, _, _) => p
    case Annotation(_, _) => p
  }

  function Left(p: Page, e: Entity): Page {
    match e
    case Interface(_) =>
      p.(lines := p.lines + (if p.properties > 0 then [Closing] else []) + [Closing] + Closings(p.namespaces))
    case Property(_, _, _) => p.(lines := p.lines + [Closing])
    case Method(_) => p.(lines := p.lines + [Closing])
    case Signal(_) => p.(lines := p.lines + [Closing])
    case _ => p
  }

  /** The order of the visits: the root is never left. */
  datatype Visit = Enter(e: Entity) | Leave(e: Entity)

  function Walk(t: Tree<Entity>): seq<Visit>
    decreases t, 0
  {
    [Enter(t.tag)] + WalkAll(t.kids)
  }

  function WalkAll(ts: seq<Tree<Entity>>): seq<Visit>
    decreases ts, 1
  {
    if ts == [] then [] else Walk(ts[0]) + [Leave(ts[0].tag)] + WalkAll(ts[1..])
  }

  function Step(p: Page, v: Visit): Page {
    match v
    case Enter(e) => Visited(p, e)
    case Leave(e) => Left(p, e)
  }

  function Written(p: Page, w: seq<Visit>): Page
    decreases |w|
  {
    if w == [] then p else Written(Step(p, w[0]), w[1..])
  }

  lemma {:induction false} WrittenConcat(p: Page, u: seq<Visit>, w: seq<Visit>)
    ensures Written(p, u + w) == Written(Written(p, u), w)
    decreases |u|
  {
    if u == [] {
      assert u + w == w;
    } else {
      assert (u + w)[1..] == u[1..] + w;
      WrittenConcat(Step(p, u[0]), u[1..], w);
    }
  }

  // ---------------------------------------------------------------- the visitors

  class Context {
    var namespaces: nat
    var properties: nat
    var signals: nat
    var buffer: seq<Line>

    function Now(): Page
      reads this
    {
      Page(namespaces, properties, signals, buffer)
    }

    constructor ()
      ensures Now() == BLANK
    {
      namespaces, properties, signals, buffer := 0, 0, 0, [];
    }

    /** The visitor. */
    method Visitor(e: Entity)
      modifies this
      ensures Now() == Visited(old(Now()), e)
    {
      match e
      case Interface(name) => VisitInterface(name);
      case Property(name, _, _) =>
        // Any signal before means that the struct around the signals is to be closed - for every property.
        buffer := buffer + if signals > 0 then [Closing] else [];
        buffer := buffer + if properties == 0 then [Opening("struct Properties")] else [];
        properties := properties + 1;
        buffer := buffer + [Opening("struct " + name)];
      case Method(name) =>
        buffer := buffer + [Opening("struct " + name)];
      case Signal(name) =>
        buffer := buffer + if signals == 0 then [Opening("struct Signals")] else [];
        signals := signals + 1;
        buffer := buffer + [Opening("struct " + name)];
      case _ =>
    }

    method VisitInterface(name: string)
      modifies this
      ensures Now() == Visited(old(Now()), Interface(name))
    {
      var spaces, interface := SplitName(name);
      assert spaces == Spaces(name);
      var i := 0;
      while i < |spaces|
        invariant 0 <= i <= |spaces|
        invariant Now() == old(Now()).(namespaces := old(namespaces) + i, lines := buffer)
        invariant buffer + Namespaces(spaces[i..]) == old(buffer) + Namespaces(spaces)
      {
        assert spaces[i..][1..] == spaces[i + 1..];
        Group(buffer, [Opening("namespace " + spaces[i])], Namespaces(spaces[i + 1..]));
        buffer := buffer + [Opening("namespace " + spaces[i])];
        namespaces := namespaces + 1;
        i := i + 1;
      }
      assert buffer + [] == buffer;
      buffer := buffer + [Opening("struct " + interface)];
    }

    /** The post_visitor. */
    method PostVisitor(e: Entity)
      modifies this
      ensures Now() == Left(old(Now()), e)
    {
      match e
      case Interface(_) =>
        buffer := buffer + if properties > 0 then [Closing] else [];
        buffer := buffer + [Closing];
        ghost var start := buffer;
        for i := 0 to namespaces
          invariant Now() == old(Now()).(lines := buffer)
          invariant buffer + Closings(namespaces - i) == start + Closings(namespaces)
        {
          Group(buffer, [Closing], Closings(namespaces - i - 1));
          buffer := buffer + [Closing];
        }
        assert buffer + [] == buffer;
      case Property(_, _, _) => buffer := buffer + [Closing];
      case Method(_) => buffer := buffer + [Closing];
      case Signal(_) => buffer := buffer + [Closing];
      case _ =>
    }

    /** Element::apply, without a function to call before a child. */
    method Apply(t: Tree<Entity>)
      modifies this
      ensures Now() == Written(old(Now()), Walk(t))
      decreases t
    {
      Visitor(t.tag);
      ghost var p := Now();
      WrittenConcat(old(Now()), [Enter(t.tag)], WalkAll(t.kids));
      assert [Enter(t.tag)][1..] == [];
      for i := 0 to |t.kids|
        invariant Written(Now(), WalkAll(t.kids[i..])) == Written(p, WalkAll(t.kids))
      {
        var child := t.kids[i];
        ChildWritten(Now(), t.kids, i);
        Apply(child);
        PostVisitor(child.tag);
      }
    }
  }

  lemma ChildWritten(p: Page, ts: seq<Tree<Entity>>, i: nat)
    requires i < |ts|
    ensures Written(p, WalkAll(ts[i..])) == Written(Left(Written(p, Walk(ts[i])), ts[i].tag), WalkAll(ts[i + 1..]))
  {
    assert ts[i..][1..] == ts[i + 1..];
    WrittenConcat(p, Walk(ts[i]) + [Leave(ts[i].tag)], WalkAll(ts[i + 1..]));
    WrittenConcat(p, Walk(ts[i]), [Leave(ts[i].tag)]);
    assert [Leave(ts[i].tag)][1..] == [];
  }

  // ---------------------------------------------------------------- what is opened

  /** The heads of the opening lines, in order. */
  function Heads(ls: seq<Line>): seq<string> {
    if ls == [] then [] else (if ls[0].Opening? then [ls[0].head] else []) + Heads(ls[1..])
  }

  function NamespaceHeads(ns: seq<string>): seq<string> {
    if ns == [] then [] else ["namespace " + ns[0]] + NamespaceHeads(ns[1..])
  }

  /** The namespaces of a dotted name and the struct inside them. */
  function InterfaceHeads(name: string): seq<string> {
    var cs := Components(name);
    NamespaceHeads(cs[..|cs| - 1]) + ["struct " + cs[|cs| - 1]]
  }

  /** Among the first n visits, no signal is entered; no property is. */
  predicate NoSignalBefore(w: seq<Visit>, n: nat)
    requires n <= |w|
  {
    forall j | 0 <= j < n :: w[j].Enter? ==> !w[j].e.Signal?
  }

  predicate NoPropertyBefore(w: seq<Visit>, n: nat)
    requires n <= |w|
  {
    forall j | 0 <= j < n :: w[j].Enter? ==> !w[j].e.Property?
  }

  /** What is opened at one visit: a struct around all signals right in front of the first signal's, one around all
      properties right in front of the first property's; interfaces, methods, signals and properties have their own. */
  function HeadsAt(w: seq<Visit>, n: nat): seq<string>
    requires n < |w|
  {
    match w[n]
    case Enter(Interface(name)) => InterfaceHeads(name)
    case Enter(Method(name)) => ["struct " + name]
    case Enter(Signal(name)) => (if NoSignalBefore(w, n) then ["struct Signals"] else []) + ["struct " + name]
    case Enter(Property(name, _, _)) =>
      (if NoPropertyBefore(w, n) then ["struct Properties"] else []) + ["struct " + name]
    case _ => []
  }

  function HeadsUpTo(w: seq<Visit>, n: nat): seq<string>
    requires n <= |w|
  {
    if n == 0 then [] else HeadsUpTo(w, n - 1) + HeadsAt(w, n - 1)
  }

  lemma {:induction false} HeadsConcat(a: seq<Line>, b: seq<Line>)
    ensures Heads(a + b) == Heads(a) + Heads(b)
    decreases |a|
  {
    if a == [] {
      assert a + b == b;
    } else {
      assert (a + b)[1..] == a[1..] + b;
      HeadsConcat(a[1..], b);
    }
  }

  lemma OneHead(l: Line)
    ensures Heads([l]) == if l.Opening? then [l.head] else []
  {
    assert [l][1..] == [];
  }

  lemma {:induction false} RowHeads(ns: seq<string>, n: nat)
    ensures Heads(Namespaces(ns)) == NamespaceHeads(ns) && Heads(Closings(n)) == []
    decreases |ns| + n
  {
    if ns != [] {
      RowHeads(ns[1..], n);
      HeadsConcat([Opening("namespace " + ns[0])], Namespaces(ns[1..]));
      OneHead(Opening("namespace " + ns[0]));
    } else if n > 0 {
      RowHeads(ns, n - 1);
      HeadsConcat([Closing], Closings(n - 1));
      OneHead(Closing);
    }
  }

  lemma FourHeads(a: seq<Line>, b: seq<Line>, c: seq<Line>, d: seq<Line>)
    ensures Heads(a + b + c + d) == Heads(a) + Heads(b) + Heads(c) + Heads(d)
    ensures Heads(a + b + c) == Heads(a) + Heads(b) + Heads(c)
    ensures Heads(a + b) == Heads(a) + Heads(b)
  {
    HeadsConcat(a + b + c, d);
    HeadsConcat(a + b, c);
    HeadsConcat(a, b);
  }

  /** What one visit opens, by the counters. */
  function HeadsBy(p: Page, v: Visit): seq<string> {
    match v
    case Enter(Interface(name)) => InterfaceHeads(name)
    case Enter(Method(name)) => ["struct " + name]
    case Enter(Signal(name)) => (if p.signals == 0 then ["struct Signals"] else []) + ["struct " + name]
    case Enter(Property(name, _, _)) =>
      (if p.properties == 0 then ["struct Properties"] else []) + ["struct " + name]
    case _ => []
  }

  lemma WithFirst(a: seq<Line>, b: seq<Line>, first: seq<Line>, l: Line)
    requires l.Opening? && Heads(b) == []
    ensures Heads(a + b + first + [l]) == Heads(a) + (Heads(first) + [l.head])
  {
    OneHead(l);
    FourHeads(a, b, first, [l]);
  }

  lemma StepHeads(p: Page, v: Visit)
    ensures Heads(Step(p, v).lines) == Heads(p.lines) + HeadsBy(p, v)
  {
    var none: seq<Line> := [];
    OneHead(Closing);
    match v
    case Enter(Interface(name)) =>
      var cs := Components(name);
      var last := [Opening("struct " + cs[|cs| - 1])];
      RowHeads(Spaces(name), 0);
      OneHead(last[0]);
      FourHeads(p.lines, Namespaces(Spaces(name)), last, none);
      Group(Heads(p.lines), NamespaceHeads(Spaces(name)), Heads(last));
    case Enter(Property(name, _, _)) =>
      WithFirst(p.lines, if p.signals > 0 then [Closing] else none,
                if p.properties == 0 then [Opening("struct Properties")] else none, Opening("struct " + name));
      OneHead(Opening("struct Properties"));
    case Enter(Method(name)) =>
      OneHead(Opening("struct " + name));
      HeadsConcat(p.lines, [Opening("struct " + name)]);
    case Enter(Signal(name)) =>
      WithFirst(p.lines, none, if p.signals == 0 then [Opening("struct Signals")] else none,
                Opening("struct " + name));
      OneHead(Opening("struct Signals"));
      assert p.lines + none == p.lines;
    case Leave(Interface(_)) =>
      RowHeads([], p.namespaces);
      FourHeads(p.lines, if p.properties > 0 then [Closing] else none, [Closing], Closings(p.namespaces));
    case Leave(_) => HeadsConcat(p.lines, [Closing]);
    case Enter(_) =>
  }

  lemma {:induction false} CountsBefore(w: seq<Visit>)
    ensures Signals(w) == 0 <==> NoSignalBefore(w, |w|)
    ensures Properties(w) == 0 <==> NoPropertyBefore(w, |w|)
  {
    if w != [] {
      CountsBefore(w[1..]);
      assert forall j | 0 < j < |w| :: w[j] == w[1..][j - 1];
      assert forall j | 0 <= j < |w[1..]| :: w[1..][j] == w[j + 1];
    }
  }

  /** What the header of any walk opens, visit by visit. */
  lemma HeadsExactly(w: seq<Visit>)
    ensures Heads(Written(BLANK, w).lines) == HeadsUpTo(w, |w|)
  {
    assert w[..0] == [] && w[..|w|] == w;
    var n := 0;
    while n < |w|
      invariant 0 <= n <= |w| && HeadsAfter(w, n) == HeadsUpTo(w, n)
    {
      HeadsNext(w, n);
      n := n + 1;
    }
  }

  lemma WrittenSnoc(w: seq<Visit>, n: nat)
    requires n < |w|
    ensures Written(BLANK, w[..n + 1]) == Step(Written(BLANK, w[..n]), w[n])
  {
    TakeSnoc(w, n);
    WrittenConcat(BLANK, w[..n], [w[n]]);
    assert [w[n]][1..] == [];
  }

  lemma HeadsByCounts(w: seq<Visit>, n: nat)
    requires n < |w|
    ensures HeadsBy(Written(BLANK, w[..n]), w[n]) == HeadsAt(w, n)
  {
    WrittenCounts(BLANK, w[..n]);
    CountsBefore(w[..n]);
    PrefixBefore(w, n);
  }

  lemma HeadsNext(w: seq<Visit>, n: nat)
    requires n < |w|
    ensures HeadsAfter(w, n) == HeadsUpTo(w, n) ==> HeadsAfter(w, n + 1) == HeadsUpTo(w, n + 1)
  {
    WrittenSnoc(w, n);
    StepHeads(Written(BLANK, w[..n]), w[n]);
    HeadsByCounts(w, n);
  }

  /** What has been opened by the first n visits. */
  function HeadsAfter(w: seq<Visit>, n: nat): seq<string>
    requires n <= |w|
  {
    Heads(Written(BLANK, w[..n]).lines)
  }

  lemma PrefixBefore(w: seq<Visit>, n: nat)
    requires n <= |w|
    ensures NoSignalBefore(w[..n], n) <==> NoSignalBefore(w, n)
    ensures NoPropertyBefore(w[..n], n) <==> NoPropertyBefore(w, n)
  {
    assert forall j | 0 <= j < n :: w[..n][j] == w[j];
  }

  // ---------------------------------------------------------------- brace depth

  lemma {:induction false} DepthConcat(a: seq<Line>, b: seq<Line>)
    ensures Depth(a + b) == Depth(a) + Depth(b)
    decreases |a|
  {
    if a == [] {
      assert a + b == b;
    } else {
      assert (a + b)[1..] == a[1..] + b;
      DepthConcat(a[1..], b);
    }
  }

  lemma DepthOne(l: Line)
    ensures Depth([l]) == if l.Opening? then 1 else -1
  {
    assert [l][1..] == [];
  }

  lemma {:induction false} DepthRows(ns: seq<string>, n: nat)
    ensures Depth(Namespaces(ns)) == |ns| && Depth(Closings(n)) == 0 - n
    decreases |ns| + n
  {
    if ns != [] {
      DepthRows(ns[1..], n);
      DepthConcat([Opening("namespace " + ns[0])], Namespaces(ns[1..]));
      DepthOne(Opening("namespace " + ns[0]));
    } else if n > 0 {
      DepthRows(ns, n - 1);
      DepthConcat([Closing], Closings(n - 1));
      DepthOne(Closing);
    }
  }

  /** How a visit changes the depth. */
  function Change(p: Page, v: Visit): int {
    match v
    case Enter(Interface(name)) => |Spaces(name)| + 1
    case Enter(Property(_, _, _)) => 1 + (if p.properties == 0 then 1 else 0) - (if p.signals > 0 then 1 else 0)
    case Enter(Method(_)) => 1
    case Enter(Signal(_)) => 1 + (if p.signals == 0 then 1 else 0)
    case Leave(Interface(_)) => -1 - (if p.properties > 0 then 1 else 0) - p.namespaces
    case Leave(Property(_, _, _)) => -1
    case Leave(Method(_)) => -1
    case Leave(Signal(_)) => -1
    case _ => 0
  }

  lemma ThreeDepths(a: seq<Line>, b: seq<Line>, c: seq<Line>, d: seq<Line>)
    ensures Depth(a + b + c + d) == Depth(a) + Depth(b) + Depth(c) + Depth(d)
    ensures Depth(a + b + c) == Depth(a) + Depth(b) + Depth(c)
    ensures Depth(a + b) == Depth(a) + Depth(b)
  {
    DepthConcat(a + b + c, d);
    DepthConcat(a + b, c);
    DepthConcat(a, b);
  }

  lemma StepDepth(p: Page, v: Visit)
    ensures Depth(Step(p, v).lines) == Depth(p.lines) + Change(p, v)
  {
    var none: seq<Line> := [];
    DepthOne(Closing);
    match v
    case Enter(Interface(name)) =>
      var cs := Components(name);
      DepthRows(Spaces(name), 0);
      DepthOne(Opening("struct " + cs[|cs| - 1]));
      ThreeDepths(p.lines, Namespaces(Spaces(name)), [Opening("struct " + cs[|cs| - 1])], none);
    case Enter(Property(name, _, _)) =>
      DepthOne(Opening("struct " + name));
      DepthOne(Opening("struct Properties"));
      ThreeDepths(p.lines, if p.signals > 0 then [Closing] else [],
                  if p.properties == 0 then [Opening("struct Properties")] else [], [Opening("struct " + name)]);
    case Enter(Method(name)) =>
      DepthOne(Opening("struct " + name));
      DepthConcat(p.lines, [Opening("struct " + name)]);
    case Enter(Signal(name)) =>
      DepthOne(Opening("struct " + name));
      DepthOne(Opening("struct Signals"));
      ThreeDepths(p.lines, if p.signals == 0 then [Opening("struct Signals")] else [],
                  [Opening("struct " + name)], none);
    case Leave(Interface(_)) =>
      DepthRows([], p.namespaces);
      ThreeDepths(p.lines, if p.properties > 0 then [Closing] else [], [Closing], Closings(p.namespaces));
    case Leave(_) => DepthConcat(p.lines, [Closing]);
    case Enter(_) =>
  }

  // What a walk holds.

  function Signals(w: seq<Visit>): nat {
    if w == [] then 0 else (if w[0].Enter? && w[0].e.Signal? then 1 else 0) + Signals(w[1..])
  }

  function Properties(w: seq<Visit>): nat {
    if w == [] then 0 else (if w[0].Enter? && w[0].e.Property? then 1 else 0) + Properties(w[1..])
  }

  function Interfaces(w: seq<Visit>): nat {
    if w == [] then 0 else (if w[0].Enter? && w[0].e.Interface? then 1 else 0) + Interfaces(w[1..])
  }

  /** Properties visited after the first signal, if `seen` says whether there has been one. */
  function Late(w: seq<Visit>, seen: bool): nat {
    if w == [] then 0
    else
      (if seen && w[0].Enter? && w[0].e.Property? then 1 else 0)
      + Late(w[1..], seen || (w[0].Enter? && w[0].e.Signal?))
  }

  /** Methods, signals and properties entered less those left. */
  function Inside(w: seq<Visit>): int {
    if w == [] then 0
    else
      (if w[0].e.Method? || w[0].e.Signal? || w[0].e.Property? then (if w[0].Enter? then 1 else -1) else 0)
      + Inside(w[1..])
  }

  /** What interfaces add and take, given the namespaces and properties counted before. */
  function Framing(w: seq<Visit>, namespaces: nat, properties: nat): int {
    if w == [] then 0
    else match w[0]
         case Enter(Interface(name)) => |Spaces(name)| + 1 + Framing(w[1..], namespaces + |Spaces(name)|, properties)
         case Leave(Interface(_)) =>
           -1 - (if properties > 0 then 1 else 0) - namespaces + Framing(w[1..], namespaces, properties)
         case Enter(Property(_, _, _)) => Framing(w[1..], namespaces, properties + 1)
         case _ => Framing(w[1..], namespaces, properties)
  }

  function First(before: nat, after: nat): int {
    if before == 0 && after > 0 then 1 else 0
  }

  lemma {:induction false} WrittenCounts(p: Page, w: seq<Visit>)
    ensures Written(p, w).signals == p.signals + Signals(w) && Written(p, w).properties == p.properties + Properties(w)
    decreases |w|
  {
    if w != [] {
      WrittenCounts(Step(p, w[0]), w[1..]);
    }
  }

  /** What a walk adds to the depth, given the counters before it. */
  function Balance(w: seq<Visit>, namespaces: nat, properties: nat, signals: nat): int {
    Inside(w) + First(signals, signals + Signals(w)) + First(properties, properties + Properties(w))
    - Late(w, signals > 0) + Framing(w, namespaces, properties)
  }

  lemma BalanceStep(w: seq<Visit>, p: Page)
    requires w != []
    ensures var q := Step(p, w[0]);
            Balance(w, p.namespaces, p.properties, p.signals) ==
            Change(p, w[0]) + Balance(w[1..], q.namespaces, q.properties, q.signals)
  {
    match w[0]
    case Enter(Interface(_)) =>
    case Enter(Property(_, _, _)) =>
    case Enter(Signal(_)) =>
    case Leave(_) =>
    case _ =>
  }

  /** Where the depth of what has been written comes from. */
  lemma {:induction false} WrittenDepth(p: Page, w: seq<Visit>)
    ensures Depth(Written(p, w).lines) == Depth(p.lines) + Balance(w, p.namespaces, p.properties, p.signals)
    decreases |w|
  {
    if w != [] {
      BalanceStep(w, p);
      StepDepth(p, w[0]);
      WrittenDepth(Step(p, w[0]), w[1..]);
    }
  }

  /** Interfaces left. */
  function Departures(w: seq<Visit>): nat {
    if w == [] then 0 else (if w[0].Leave? && w[0].e.Interface? then 1 else 0) + Departures(w[1..])
  }

  /** Namespaces opened. */
  function SpacesIn(w: seq<Visit>): nat {
    if w == [] then 0 else (if w[0].Enter? && w[0].e.Interface? then |Spaces(w[0].e.name)| else 0) + SpacesIn(w[1..])
  }

  /** Namespaces opened after the last interface is left. */
  function Trailing(w: seq<Visit>): nat {
    if Departures(w) == 0 then SpacesIn(w) else Trailing(w[1..])
  }

  /** Namespaces closed: an interface closes all that have been counted so far. */
  function Closed(w: seq<Visit>, namespaces: nat): nat {
    if w == [] then 0
    else match w[0]
         case Enter(Interface(name)) => Closed(w[1..], namespaces + |Spaces(name)|)
         case Leave(Interface(_)) => namespaces + Closed(w[1..], namespaces)
         case _ => Closed(w[1..], namespaces)
  }

  /** Namespaces closed by an interface other than the last one left: the last one closes them once more. */
  function Again(w: seq<Visit>, namespaces: nat): nat {
    if w == [] then 0
    else match w[0]
         case Enter(Interface(name)) => Again(w[1..], namespaces + |Spaces(name)|)
         case Leave(Interface(_)) => (if Departures(w[1..]) > 0 then namespaces else 0) + Again(w[1..], namespaces)
         case _ => Again(w[1..], namespaces)
  }

  /** Interfaces left after some property has been visited: each one closes the struct around the properties. */
  function LeftAfter(w: seq<Visit>, properties: nat): nat {
    if w == [] then 0
    else match w[0]
         case Enter(Property(_, _, _)) => LeftAfter(w[1..], properties + 1)
         case Leave(Interface(_)) => (if properties > 0 then 1 else 0) + LeftAfter(w[1..], properties)
         case _ => LeftAfter(w[1..], properties)
  }

  lemma {:induction false} FramingSplit(w: seq<Visit>, namespaces: nat, properties: nat)
    ensures Framing(w, namespaces, properties) ==
            SpacesIn(w) + Interfaces(w) - Departures(w) - LeftAfter(w, properties) - Closed(w, namespaces)
    decreases |w|
  {
    if w != [] {
      match w[0]
      case Enter(Interface(name)) => FramingSplit(w[1..], namespaces + |Spaces(name)|, properties);
      case Enter(Property(_, _, _)) => FramingSplit(w[1..], namespaces, properties + 1);
      case _ => FramingSplit(w[1..], namespaces, properties);
    }
  }

  lemma {:induction false} ClosedSplit(w: seq<Visit>, namespaces: nat)
    ensures Closed(w, namespaces) ==
            Again(w, namespaces) + if Departures(w) > 0 then namespaces + SpacesIn(w) - Trailing(w) else 0
    decreases |w|
  {
    if w != [] {
      match w[0]
      case Enter(Interface(name)) => ClosedSplit(w[1..], namespaces + |Spaces(name)|);
      case _ => ClosedSplit(w[1..], namespaces);
    }
  }

  lemma {:induction false} SumsConcat(u: seq<Visit>, w: seq<Visit>)
    ensures Interfaces(u + w) == Interfaces(u) + Interfaces(w)
    ensures Inside(u + w) == Inside(u) + Inside(w)
    decreases |u|
  {
    if u == [] {
      assert u + w == w;
    } else {
      assert (u + w)[1..] == u[1..] + w;
      SumsConcat(u[1..], w);
    }
  }

  lemma {:induction false} TracesConcat(u: seq<Visit>, w: seq<Visit>)
    ensures Departures(u + w) == Departures(u) + Departures(w)
    ensures SpacesIn(u + w) == SpacesIn(u) + SpacesIn(w)
    ensures Trailing(u + w) == if Departures(w) > 0 then Trailing(w) else Trailing(u) + SpacesIn(w)
    decreases |u|
  {
    if u == [] {
      assert u + w == w;
    } else {
      assert (u + w)[1..] == u[1..] + w;
      TracesConcat(u[1..], w);
    }
  }

  /** One visit. */
  lemma OneVisit(v: Visit)
    ensures Interfaces([v]) == (if v.Enter? && v.e.Interface? then 1 else 0)
    ensures Inside([v]) == (if v.e.Method? || v.e.Signal? || v.e.Property? then (if v.Enter? then 1 else -1) else 0)
    ensures Departures([v]) == (if v.Leave? && v.e.Interface? then 1 else 0)
    ensures SpacesIn([v]) == (if v.Enter? && v.e.Interface? then |Spaces(v.e.name)| else 0)
    ensures Trailing([v]) == SpacesIn([v])
  {
    assert [v][1..] == [];
  }

  /** A child is left as often as it is entered, and nothing is opened after the last interface is left. */
  lemma {:induction false} WalkSums(ts: seq<Tree<Entity>>)
    ensures Inside(WalkAll(ts)) == 0 && Departures(WalkAll(ts)) == Interfaces(WalkAll(ts))
    ensures Trailing(WalkAll(ts)) == 0 && (Interfaces(WalkAll(ts)) == 0 ==> SpacesIn(WalkAll(ts)) == 0)
    decreases ts
  {
    if ts != [] {
      var t, q := ts[0], WalkAll(ts[1..]);
      WalkSums(t.kids);
      WalkSums(ts[1..]);
      var e, k, l := [Enter(t.tag)], WalkAll(t.kids), [Leave(t.tag)];
      OneVisit(Enter(t.tag));
      OneVisit(Leave(t.tag));
      SumsConcat(e + k + l, q);
      SumsConcat(e + k, l);
      SumsConcat(e, k);
      TracesConcat(e + k + l, q);
      TracesConcat(e + k, l);
      TracesConcat(e, k);
    }
  }

  function One(b: bool): nat {
    if b then 1 else 0
  }

  /** What a root leaves open, as it is never left itself; only its own namespaces may come on top. */
  function Unclosed(root: Entity): nat {
    One(root.Interface? || root.Method? || root.Signal? || root.Property?)
  }

  /** The braces a tree's header opens too many: around its root, its signals and its properties. */
  function TooManyOpened(t: Tree<Entity>): nat {
    var w := Walk(t);
    Unclosed(t.tag) + Trailing(w) + One(Signals(w) > 0) + One(Properties(w) > 0)
  }

  /** The braces it closes too many: at properties after the first signal, at interfaces left after a property, and at
      interfaces that close the namespaces of others again. */
  function TooManyClosed(t: Tree<Entity>): nat {
    var w := Walk(t);
    Late(w, false) + LeftAfter(w, 0) + Again(w, 0)
  }

  /** The brace depth left by any tree. */
  lemma DepthLeft(t: Tree<Entity>)
    ensures Depth(Written(BLANK, Walk(t)).lines) == TooManyOpened(t) - TooManyClosed(t)
    ensures t.tag.Node? ==> Unclosed(t.tag) == 0 && Trailing(Walk(t)) == 0
  {
    var e, k := [Enter(t.tag)], WalkAll(t.kids);
    OneVisit(Enter(t.tag));
    SumsConcat(e, k);
    TracesConcat(e, k);
    WalkSums(t.kids);
    WrittenDepth(BLANK, Walk(t));
    FramingSplit(Walk(t), 0, 0);
    ClosedSplit(Walk(t), 0);
  }

  /** Under a node, braces balance exactly when the structs around signals and around properties make up for what is
      closed too often, whatever the number of interfaces. */
  lemma BalancedExactly(t: Tree<Entity>)
    ensures Depth(Written(BLANK, Walk(t)).lines) == 0 <==> TooManyOpened(t) == TooManyClosed(t)
    ensures t.tag.Node? ==> TooManyOpened(t) == One(Signals(Walk(t)) > 0) + One(Properties(Walk(t)) > 0)
  {
    DepthLeft(t);
  }

  // ---------------------------------------------------------------- one interface

  /** Properties visited before an interface is left. */
  function Until(w: seq<Visit>): nat {
    if w == [] || (w[0].Leave? && w[0].e.Interface?) then 0
    else (if w[0].Enter? && w[0].e.Property? then 1 else 0) + Until(w[1..])
  }

  lemma {:induction false} OneDeparture(w: seq<Visit>, namespaces: nat, properties: nat)
    requires Departures(w) <= 1
    ensures Again(w, namespaces) == 0
    ensures LeftAfter(w, properties) == One(Departures(w) == 1 && properties + Until(w) > 0)
    decreases |w|
  {
    if w != [] {
      match w[0]
      case Enter(Interface(name)) => OneDeparture(w[1..], namespaces + |Spaces(name)|, properties);
      case Enter(Property(_, _, _)) => OneDeparture(w[1..], namespaces, properties + 1);
      case _ => OneDeparture(w[1..], namespaces, properties);
    }
  }

  /** With one interface: one too many for the struct around signals, one too few for every property after the first
      signal, and the struct around properties where the interface has been left before any of them. */
  lemma OneInterfaceDepth(t: Tree<Entity>)
    requires t.tag.Node? && Interfaces(Walk(t)) == 1
    ensures var w := Walk(t);
            Depth(Written(BLANK, w).lines) ==
            One(Signals(w) > 0) - Late(w, false) + One(Properties(w) > 0) - One(Until(w) > 0)
  {
    DepthLeft(t);
    OneVisit(Enter(t.tag));
    SumsConcat([Enter(t.tag)], WalkAll(t.kids));
    TracesConcat([Enter(t.tag)], WalkAll(t.kids));
    WalkSums(t.kids);
    OneDeparture(Walk(t), 0, 0);
  }

  /** With one interface that holds all properties, braces balance exactly when there is no signal, or exactly one
      property after the first signal. */
  lemma OneInterfaceBalanced(t: Tree<Entity>)
    requires t.tag.Node? && Interfaces(Walk(t)) == 1 && Until(Walk(t)) == Properties(Walk(t))
    ensures Depth(Written(BLANK, Walk(t)).lines) == 0 <==> Signals(Walk(t)) == 0 || Late(Walk(t), false) == 1
  {
    OneInterfaceDepth(t);
    NoneLate(Walk(t));
  }

  lemma {:induction false} NoneLate(w: seq<Visit>)
    ensures Signals(w) == 0 ==> Late(w, false) == 0
  {
    if w != [] {
      NoneLate(w[1..]);
    }
  }

  // ---------------------------------------------------------------- interfaces side by side

  lemma {:induction false} AgainConcat(u: seq<Visit>, w: seq<Visit>, namespaces: nat)
    ensures Departures(w) > 0 ==>
              Again(u + w, namespaces) == Closed(u, namespaces) + Again(w, namespaces + SpacesIn(u))
    ensures Departures(w) == 0 ==> Again(u + w, namespaces) == Again(u, namespaces)
    decreases |u|
  {
    if u == [] {
      assert u + w == w;
      if Departures(w) == 0 {
        OneDeparture(w, namespaces, 0);
      }
    } else {
      assert (u + w)[1..] == u[1..] + w;
      TracesConcat(u[1..], w);
      var n := if u[0].Enter? && u[0].e.Interface? then namespaces + |Spaces(u[0].e.name)| else namespaces;
      AgainConcat(u[1..], w, n);
    }
  }

  /** Interfaces with no interface inside. */
  predicate SideBySide(ts: seq<Tree<Entity>>) {
    forall i | 0 <= i < |ts| :: ts[i].tag.Interface? && Interfaces(WalkAll(ts[i].kids)) == 0
  }

  /** One such interface closes its own namespaces and those counted before. */
  lemma OneSideClosed(t: Tree<Entity>, namespaces: nat)
    requires t.tag.Interface? && Interfaces(WalkAll(t.kids)) == 0
    ensures var u := Walk(t) + [Leave(t.tag)];
            && Departures(u) == 1 && SpacesIn(u) == |Spaces(t.tag.name)|
            && Closed(u, namespaces) == namespaces + |Spaces(t.tag.name)| && Again(u, namespaces) == 0
  {
    var e, k, l := [Enter(t.tag)], WalkAll(t.kids), [Leave(t.tag)];
    WalkSums(t.kids);
    OneVisit(Enter(t.tag));
    OneVisit(Leave(t.tag));
    TracesConcat(e + k, l);
    TracesConcat(e, k);
    ClosedSplit(e + k + l, namespaces);
    OneDeparture(e + k + l, namespaces, 0);
  }

  /** Nothing is closed again exactly when no name but the last has a dot. */
  lemma {:induction false} SideBySideAgain(ts: seq<Tree<Entity>>, namespaces: nat)
    requires SideBySide(ts)
    ensures Again(WalkAll(ts), namespaces) == 0 <==>
            |ts| <= 1 || (namespaces == 0 && forall i | 0 <= i < |ts| - 1 :: Spaces(ts[i].tag.name) == [])
    ensures Departures(WalkAll(ts)) == |ts|
    decreases |ts|
  {
    if ts != [] {
      var t, q := ts[0], ts[1..];
      var u := Walk(t) + [Leave(t.tag)];
      var n := |Spaces(t.tag.name)|;
      OneSideClosed(t, namespaces);
      SideBySideAgain(q, namespaces + n);
      AgainConcat(u, WalkAll(q), namespaces);
      TracesConcat(u, WalkAll(q));
      forall i | 0 <= i < |q| ensures q[i] == ts[i + 1] {}
      if |ts| > 1 && n == 0 && forall i | 0 <= i < |q| - 1 :: Spaces(q[i].tag.name) == [] {
        forall i | 0 <= i < |ts| - 1 ensures Spaces(ts[i].tag.name) == [] {
          assert i > 0 ==> ts[i] == q[i - 1];
        }
      }
    }
  }

  lemma {:induction false} NoneLeftAfter(w: seq<Visit>)
    ensures Properties(w) == 0 ==> LeftAfter(w, 0) == 0
    decreases |w|
  {
    if w != [] {
      NoneLeftAfter(w[1..]);
    }
  }

  /** Interfaces side by side without signals and properties: braces balance exactly when every interface name but the
      last is without a dot, as the namespaces of all others are closed again. */
  lemma SideBySideBalanced(t: Tree<Entity>)
    requires t.tag.Node? && SideBySide(t.kids) && Signals(Walk(t)) == 0 && Properties(Walk(t)) == 0
    ensures Depth(Written(BLANK, Walk(t)).lines) == 0 <==>
            forall i | 0 <= i < |t.kids| - 1 :: Spaces(t.kids[i].tag.name) == []
  {
    DepthLeft(t);
    NoneLate(Walk(t));
    NoneLeftAfter(Walk(t));
    assert Walk(t)[1..] == WalkAll(t.kids);
    SideBySideAgain(t.kids, 0);
  }

  /** Two dotted names are enough, without any signal or property: "a" is closed twice. */
  lemma TwoInterfaces()
    ensures var t := Tree.Node(Entity.Node("/"), [Tree.Node(Interface("a.I"), []), Tree.Node(Interface("a.J"), [])]);
            Signals(Walk(t)) == 0 && Properties(Walk(t)) == 0 && Depth(Written(BLANK, Walk(t)).lines) == -1
  {
    var i, j := Interface("a.I"), Interface("a.J");
    OneSpace("a", "I");
    assert "a" + "." + "I" == "a.I";
    var w := PairWalk(Entity.Node("/"), i, j);
    PairCounts(i, j);
    DepthLeft(Tree.Node(Entity.Node("/"), [Tree.Node(i, []), Tree.Node(j, [])]));
    NoneLate([Enter(Entity.Node("/"))] + w);
    NoneLeftAfter([Enter(Entity.Node("/"))] + w);
    assert ([Enter(Entity.Node("/"))] + w)[1..] == w;
  }

  lemma OneSpace(n: string, i: string)
    requires '.' !in n && '.' !in i
    ensures Spaces(n + "." + i) == [n]
  {
    assert [n, i][1..] == [i];
    AreComponents(n + "." + i, [n, i]);
    assert [n, i][..1] == [n];
  }

  lemma PairWalk(root: Entity, i: Entity, j: Entity) returns (w: seq<Visit>)
    ensures w == [Enter(i), Leave(i), Enter(j), Leave(j)]
    ensures Walk(Tree.Node(root, [Tree.Node(i, []), Tree.Node(j, [])])) == [Enter(root)] + w
  {
    w := [Enter(i), Leave(i), Enter(j), Leave(j)];
    var ts := [Tree.Node(i, []), Tree.Node(j, [])];
    assert ts[1..] == [Tree.Node(j, [])] && ts[1..][1..] == [];
    LeafWalk(i);
    LeafWalk(j);
    assert WalkAll(ts[1..][1..]) == [];
    assert WalkAll(ts[1..]) == Walk(ts[1]) + [Leave(j)] + [] == [Enter(j), Leave(j)];
    assert WalkAll(ts) == Walk(ts[0]) + [Leave(i)] + WalkAll(ts[1..]) == w;
  }

  lemma LeafWalk(e: Entity)
    ensures Walk(Tree.Node(e, [])) == [Enter(e)]
  {
  }

  lemma PairCounts(i: Entity, j: Entity)
    requires i.Interface? && j.Interface?
    ensures var w := [Enter(i), Leave(i), Enter(j), Leave(j)];
            Signals(w) == 0 && Properties(w) == 0 && Again(w, 0) == |Spaces(i.name)|
  {
    var w := [Enter(i), Leave(i), Enter(j), Leave(j)];
    var w1, w2, w3 := [Leave(i), Enter(j), Leave(j)], [Enter(j), Leave(j)], [Leave(j)];
    assert w3[1..] == [];
    assert Signals(w3) == 0 && Properties(w3) == 0 && Departures(w3) == 1;
    assert w2[1..] == w3;
    assert Signals(w2) == 0 && Properties(w2) == 0 && Departures(w2) == 1;
    OneDeparture(w2, |Spaces(i.name)|, 0);
    assert w1[1..] == w2;
    assert Signals(w1) == 0 && Properties(w1) == 0 && Again(w1, |Spaces(i.name)|) == |Spaces(i.name)|;
    assert w[1..] == w1;
  }
}
