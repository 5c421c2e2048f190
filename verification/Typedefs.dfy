/**
 The types in a generated header (src/core/dbus/generator.cpp:711-886): while the visitors walk the compiler's tree, the
 arguments of a method go through two type manglers, those of a signal through one, and the typedefs are written when
 the method or signal is left; a property has a mangler of its own.
 */
module Typedefs {
  import opened CursorTree
  import opened Introspection
  import opened KindOrder
  import opened Sequences
  import opened Wrappers
  import C = Compiler
  import G = Generator
  import H = Headers
  import M = Message
  import N = CppNames
  import P = PrintedSignatures
  import S = Signatures
  import ST = SignatureTrees
  import T = TypeMangler

  /** The line "typedef <typ> <alias>;" in the struct of an entity. */
  datatype Typedef = Typedef(struct: string, alias: string, typ: string)

  // ---------------------------------------------------------------- what the visitors do

  /** A mangler reads this without following a null `current`. */
  ghost predicate Legible(s: string) {
    Safe(0, T.StringOps(s))
  }

  /** And it can print what it has read. */
  ghost predicate Fit(s: string) {
    Legible(s) && T.PairsFilled(ST.Mangled(s).tree)
  }

  ghost function Printed(s: string): string {
    if Fit(s) then T.PrintedType(ST.Mangled(s).tree) else ""
  }

  /** What the manglers of the current method, in and out, and of the current signal have read, and the lines. */
  datatype Sheet = Sheet(methodArgs: Option<(string, string)>, signalArgs: Option<string>, lines: seq<Typedef>)

  const BLANK := Sheet(None, None, [])

  /** Whether an argument of this direction goes through the mangler for `which`; a signal's is for all. */
  predicate Goes(d: Direction, which: Direction) {
    which == Direction.Context || d == Direction.Context || d == which
  }

  function Part(e: Entity, which: Direction): string {
    if e.Argument? && Goes(e.direction, which) then M.CString(e.typ) else ""
  }

  ghost function Visited(p: Sheet, e: Entity): Sheet {
    match e
    case Property(name, typ, _) => p.(lines := p.lines + [Typedef(name, "ArgumentType", Printed(M.CString(typ)))])
    case Method(_) => p.(methodArgs := Some(("", "")))
    case Signal(_) => p.(signalArgs := Some(""))
    case Argument(_, _, _) =>
      if p.methodArgs.Some? then
        var (i, o) := p.methodArgs.value;
        p.(methodArgs := Some((i + Part(e, In), o + Part(e, Out))))
      else if p.signalArgs.Some? then p.(signalArgs := Some(p.signalArgs.value + Part(e, Direction.Context)))
      else p
    case _ => p
  }

  ghost function Left(p: Sheet, e: Entity): Sheet {
    match e
    case Method(name) =>
      var (i, o) := if p.methodArgs.Some? then p.methodArgs.value else ("", "");
      var types := [Typedef(name, "ArgumentType", Printed(i)), Typedef(name, "ResultType", Printed(o))];
      Sheet(None, p.signalArgs, p.lines + types)
    case Signal(name) =>
      var a := if p.signalArgs.Some? then p.signalArgs.value else "";
      Sheet(p.methodArgs, None, p.lines + [Typedef(name, "ArgumentType", Printed(a))])
    case _ => p
  }

  ghost function Step(p: Sheet, v: G.Visit): Sheet {
    match v
    case Enter(e) => Visited(p, e)
    case Leave(e) => Left(p, e)
  }

  /** No visit follows a null pointer, and what is printed can be printed. */
  ghost predicate Ready(p: Sheet, v: G.Visit) {
    match v
    case Enter(Property(_, typ, _)) => Fit(M.CString(typ))
    case Enter(Argument(_, _, _)) =>
      var q := Visited(p, v.e);
      && (q.methodArgs.Some? ==> Legible(q.methodArgs.value.0) && Legible(q.methodArgs.value.1))
      && (q.signalArgs.Some? ==> Legible(q.signalArgs.value))
    case Leave(Method(_)) => p.methodArgs.Some? && Fit(p.methodArgs.value.0) && Fit(p.methodArgs.value.1)
    case Leave(Signal(_)) => p.signalArgs.Some? && Fit(p.signalArgs.value)
    case _ => true
  }

  ghost function Written(p: Sheet, w: seq<G.Visit>): Sheet
    decreases |w|
  {
    if w == [] then p else Written(Step(p, w[0]), w[1..])
  }

  ghost predicate AllReady(p: Sheet, w: seq<G.Visit>)
    decreases |w|
  {
    w == [] || (Ready(p, w[0]) && AllReady(Step(p, w[0]), w[1..]))
  }

  lemma {:induction false} WrittenConcat(p: Sheet, u: seq<G.Visit>, w: seq<G.Visit>)
    ensures Written(p, u + w) == Written(Written(p, u), w)
    ensures AllReady(p, u + w) <==> AllReady(p, u) && AllReady(Written(p, u), w)
    decreases |u|
  {
    if u == [] {
      assert u + w == w;
    } else {
      assert (u + w)[1..] == u[1..] + w;
      WrittenConcat(Step(p, u[0]), u[1..], w);
    }
  }

  lemma OneVisit(p: Sheet, v: G.Visit)
    ensures Written(p, [v]) == Step(p, v) && (AllReady(p, [v]) <==> Ready(p, v))
  {
    assert [v][1..] == [];
  }

  // ---------------------------------------------------------------- the visitors

  ghost predicate Holds(m: T.TypeMangler, s: string)
    reads m
  {
    Legible(s) && m.Valid() && m.State() == ST.Mangled(s)
  }

  /** What a mangler reads next goes behind what it has read. */
  method Feed(m: T.TypeMangler, typ: string, ghost s: string)
    requires Holds(m, s) && Legible(s + M.CString(typ))
    modifies m
    ensures Holds(m, s + M.CString(typ))
  {
    T.StringOpsConcat(s, M.CString(typ));
    RunSplit(ST.EMPTY, T.StringOps(s), T.StringOps(M.CString(typ)));
    var ok := m.UpdateFromSignature(typ);
  }

  class Context {
    // A null mangler stands for a null pointer in the empty method or signal.
    var inMangler: T.TypeMangler?
    var outMangler: T.TypeMangler?
    var signalMangler: T.TypeMangler?
    var buffer: seq<Typedef>
    ghost var methodArgs: Option<(string, string)>  // as in Sheet
    ghost var signalArgs: Option<string>

    ghost function Now(): Sheet
      reads this
    {
      Sheet(methodArgs, signalArgs, buffer)
    }

    ghost function Manglers(): set<object>
      reads this
    {
      (if inMangler == null then {} else {inMangler})
      + (if outMangler == null then {} else {outMangler})
      + (if signalMangler == null then {} else {signalMangler})
    }

    ghost predicate Valid()
      reads this, Manglers()
    {
      && (methodArgs.Some? <==> inMangler != null) && (methodArgs.Some? <==> outMangler != null)
      && (signalArgs.Some? <==> signalMangler != null)
      && (methodArgs.Some? ==>
            && inMangler != outMangler && inMangler != signalMangler && outMangler != signalMangler
            && Holds(inMangler, methodArgs.value.0) && Holds(outMangler, methodArgs.value.1))
      && (signalArgs.Some? ==> Holds(signalMangler, signalArgs.value))
    }

    constructor ()
      ensures Valid() && Now() == BLANK && Manglers() == {}
    {
      inMangler, outMangler, signalMangler, buffer := null, null, null, [];
      methodArgs, signalArgs := None, None;
    }

    /** The visitor, as far as types go. */
    method Visitor(e: Entity)
      requires Valid() && Ready(Now(), G.Enter(e))
      modifies this, Manglers()
      ensures Valid() && Now() == Visited(old(Now()), e) && fresh(Manglers() - old(Manglers()))
    {
      match e
      case Property(name, typ, _) =>
        var t := OwnType(typ);
        buffer := buffer + [Typedef(name, "ArgumentType", t)];
      case Method(_) => EnterMethod();
      case Signal(_) => EnterSignal();
      case Argument(_, _, _) =>
        if inMangler != null {
          MethodArgument(e);
        } else if signalMangler != null {
          SignalArgument(e);
        }
      case _ =>
    }

    method EnterMethod()
      requires Valid()
      modifies `inMangler, `outMangler, `methodArgs
      ensures Valid() && Now() == old(Now()).(methodArgs := Some(("", ""))) && fresh(Manglers() - old(Manglers()))
    {
      inMangler := new T.TypeMangler();
      outMangler := new T.TypeMangler();
      methodArgs := Some(("", ""));
    }

    method EnterSignal()
      requires Valid()
      modifies `signalMangler, `signalArgs
      ensures Valid() && Now() == old(Now()).(signalArgs := Some("")) && fresh(Manglers() - old(Manglers()))
    {
      signalMangler := new T.TypeMangler();
      signalArgs := Some("");
    }

    /** The type of a property, from the mangler of its own. */
    method OwnType(typ: string) returns (t: string)
      requires Fit(M.CString(typ))
      ensures t == Printed(M.CString(typ))
    {
      var own := new T.TypeMangler();
      assert "" + M.CString(typ) == M.CString(typ);
      Feed(own, typ, "");
      t := own.PrintType();
    }

    method SignalArgument(e: Entity)
      requires Valid() && Ready(Now(), G.Enter(e)) && e.Argument? && methodArgs.None? && signalArgs.Some?
      modifies this`signalArgs, signalMangler
      ensures Valid() && Now() == Visited(old(Now()), e)
    {
      assert Part(e, Direction.Context) == M.CString(e.typ);
      Feed(signalMangler, e.typ, signalArgs.value);
      signalArgs := Some(signalArgs.value + M.CString(e.typ));
    }

    method MethodArgument(e: Entity)
      requires Valid() && Ready(Now(), G.Enter(e)) && e.Argument? && methodArgs.Some?
      modifies this`methodArgs, inMangler, outMangler
      ensures Valid() && Now() == Visited(old(Now()), e)
    {
      ghost var i, o := methodArgs.value.0, methodArgs.value.1;
      assert i + "" == i && o + "" == o;
      if Goes(e.direction, In) {
        Feed(inMangler, e.typ, i);
      }
      if Goes(e.direction, Out) {
        Feed(outMangler, e.typ, o);
      }
      methodArgs := Some((i + Part(e, In), o + Part(e, Out)));
    }

    /** The post_visitor. */
    method PostVisitor(e: Entity)
      requires Valid() && Ready(Now(), G.Leave(e))
      modifies this
      ensures Valid() && Now() == Left(old(Now()), e) && Manglers() <= old(Manglers())
    {
      match e
      case Method(name) => LeaveMethod(name);
      case Signal(name) => LeaveSignal(name);
      case _ =>
    }

    method LeaveMethod(name: string)
      requires methodArgs.Some? && inMangler != null && outMangler != null
      requires Holds(inMangler, methodArgs.value.0) && Holds(outMangler, methodArgs.value.1)
      requires Ready(Now(), G.Leave(Method(name)))
      modifies `inMangler, `outMangler, `methodArgs, `buffer
      ensures inMangler == null && outMangler == null && Now() == Left(old(Now()), Method(name))
    {
      var i := inMangler.PrintType();
      var o := outMangler.PrintType();
      assert i == Printed(methodArgs.value.0) && o == Printed(methodArgs.value.1);
      buffer := buffer + [Typedef(name, "ArgumentType", i), Typedef(name, "ResultType", o)];
      inMangler, outMangler, methodArgs := null, null, None;
    }

    method LeaveSignal(name: string)
      requires signalArgs.Some? && signalMangler != null && Holds(signalMangler, signalArgs.value)
      requires Ready(Now(), G.Leave(Signal(name)))
      modifies `signalMangler, `signalArgs, `buffer
      ensures signalMangler == null && Now() == Left(old(Now()), Signal(name))
    {
      var a := signalMangler.PrintType();
      buffer := buffer + [Typedef(name, "ArgumentType", a)];
      signalMangler, signalArgs := null, None;
    }

    /** Element::apply. */
    method Apply(t: Tree<Entity>)
      requires Valid() && AllReady(Now(), G.Walk(t))
      modifies this, Manglers()
      ensures Valid() && Now() == Written(old(Now()), G.Walk(t)) && fresh(Manglers() - old(Manglers()))
      decreases t, 1
    {
      ghost var before, all := Now(), G.WalkAll(t.kids);
      WrittenConcat(before, [G.Enter(t.tag)], all);
      OneVisit(before, G.Enter(t.tag));
      Visitor(t.tag);
      for i := 0 to |t.kids|
        invariant Valid() && fresh(Manglers() - old(Manglers()))
        invariant AllReady(Now(), G.WalkAll(t.kids[i..]))
        invariant Written(Now(), G.WalkAll(t.kids[i..])) == Written(Visited(before, t.tag), all)
      {
        ApplyChild(t, i);
      }
    }

    method ApplyChild(t: Tree<Entity>, i: nat)
      requires i < |t.kids| && Valid() && AllReady(Now(), G.WalkAll(t.kids[i..]))
      modifies this, Manglers()
      ensures Valid() && AllReady(Now(), G.WalkAll(t.kids[i + 1..])) && fresh(Manglers() - old(Manglers()))
      ensures Written(Now(), G.WalkAll(t.kids[i + 1..])) == old(Written(Now(), G.WalkAll(t.kids[i..])))
      decreases t, 0
    {
      var child := t.kids[i];
      ChildWritten(Now(), t.kids, i);
      Apply(child);
      PostVisitor(child.tag);
    }
  }

  lemma ChildWritten(p: Sheet, ts: seq<Tree<Entity>>, i: nat)
    requires i < |ts|
    ensures var q := Written(p, G.Walk(ts[i]));
            && Written(p, G.WalkAll(ts[i..])) == Written(Left(q, ts[i].tag), G.WalkAll(ts[i + 1..]))
            && (AllReady(p, G.WalkAll(ts[i..])) ==>
                  && AllReady(p, G.Walk(ts[i])) && Ready(q, G.Leave(ts[i].tag))
                  && AllReady(Left(q, ts[i].tag), G.WalkAll(ts[i + 1..])))
  {
    assert ts[i..][1..] == ts[i + 1..];
    WrittenConcat(p, G.Walk(ts[i]) + [G.Leave(ts[i].tag)], G.WalkAll(ts[i + 1..]));
    WrittenConcat(p, G.Walk(ts[i]), [G.Leave(ts[i].tag)]);
    OneVisit(Written(p, G.Walk(ts[i])), G.Leave(ts[i].tag));
  }

  // ---------------------------------------------------------------- where the types come from

  /** What a typedef is made from: a signature, or several put one behind the other. */
  datatype Source = Source(struct: string, alias: string, signature: string)

  ghost function Line(x: Source): Typedef {
    Typedef(x.struct, x.alias, Printed(x.signature))
  }

  ghost function Lines(xs: seq<Source>): seq<Typedef> {
    if xs == [] then [] else [Line(xs[0])] + Lines(xs[1..])
  }

  /** The signatures of the arguments among some children for one mangler, in their order. */
  function Gathered(ts: seq<Tree<Entity>>, which: Direction): string {
    if ts == [] then "" else Part(ts[0].tag, which) + Gathered(ts[1..], which)
  }

  /** The typedefs of an element itself. */
  function Own(e: Entity, kids: seq<Tree<Entity>>): seq<Source> {
    match e
    case Method(n) =>
      [Source(n, "ArgumentType", Gathered(kids, In)), Source(n, "ResultType", Gathered(kids, Out))]
    case Signal(n) => [Source(n, "ArgumentType", Gathered(kids, Direction.Context))]
    case Property(n, typ, _) => [Source(n, "ArgumentType", M.CString(typ))]
    case _ => []
  }

  function Sources(t: Tree<Entity>): seq<Source>
    decreases t, 0
  {
    Own(t.tag, t.kids) + SourcesAll(t.kids)
  }

  function SourcesAll(ts: seq<Tree<Entity>>): seq<Source>
    decreases ts, 1
  {
    if ts == [] then [] else Sources(ts[0]) + SourcesAll(ts[1..])
  }

  predicate Parses(typ: string) {
    S.ParseAll(M.CString(typ)).Some?
  }

  /** Nothing but annotations. */
  predicate Notes(ts: seq<Tree<Entity>>)
    decreases ts
  {
    forall i | 0 <= i < |ts| :: ts[i].tag.Annotation? && Notes(ts[i].kids)
  }

  /** Arguments and annotations, which hold nothing but annotations. */
  predicate Leafy(ts: seq<Tree<Entity>>) {
    forall i | 0 <= i < |ts| :: (ts[i].tag.Argument? || ts[i].tag.Annotation?) && Notes(ts[i].kids)
  }

  /** Types of arguments and properties are signatures, and methods and signals hold arguments and annotations. */
  predicate Typed(t: Tree<Entity>)
    decreases t
  {
    && (t.tag.Argument? || t.tag.Property? ==> Parses(t.tag.typ))
    && (t.tag.Method? || t.tag.Signal? ==> Leafy(t.kids))
    && forall i | 0 <= i < |t.kids| :: Typed(t.kids[i])
  }

  predicate AllTyped(ts: seq<Tree<Entity>>) {
    forall i | 0 <= i < |ts| :: Typed(ts[i])
  }

  lemma {:induction false} LinesConcat(xs: seq<Source>, ys: seq<Source>)
    ensures Lines(xs + ys) == Lines(xs) + Lines(ys)
    decreases |xs|
  {
    if xs == [] {
      assert xs + ys == ys;
    } else {
      assert (xs + ys)[1..] == xs[1..] + ys;
      LinesConcat(xs[1..], ys);
    }
  }

  lemma ParsesFit(s: string)
    requires S.ParseAll(s).Some?
    ensures Fit(s)
  {
    P.PrintedExactly(s, S.ParseAll(s).value);
  }

  lemma ParsesLegible(s: string)
    requires S.ParseAll(s).Some?
    ensures Legible(s)
  {
    ParsesFit(s);
  }

  lemma PartParses(e: Entity, which: Direction, s: string)
    requires (e.Argument? ==> Parses(e.typ)) && S.ParseAll(s).Some?
    ensures S.ParseAll(s + Part(e, which)).Some?
  {
    if Part(e, which) == "" {
      assert s + "" == s;
    } else {
      P.ParseConcat(s, Part(e, which), S.ParseAll(s).value, S.ParseAll(Part(e, which)).value);
    }
  }

  /** Annotations leave everything as it is. */
  lemma {:induction false} NotesWritten(ts: seq<Tree<Entity>>, p: Sheet)
    requires Notes(ts)
    ensures Written(p, G.WalkAll(ts)) == p && AllReady(p, G.WalkAll(ts))
    decreases ts
  {
    if ts != [] {
      var t := ts[0];
      NotesWritten(t.kids, p);
      NotesWritten(ts[1..], p);
      Around(p, t, ts[1..]);
    }
  }

  /** The walk over a first child and the others. */
  lemma Around(p: Sheet, t: Tree<Entity>, ts: seq<Tree<Entity>>)
    ensures var q := Visited(p, t.tag);
            var r := Written(q, G.WalkAll(t.kids));
            && Written(p, G.WalkAll([t] + ts)) == Written(Left(r, t.tag), G.WalkAll(ts))
            && (AllReady(p, G.WalkAll([t] + ts)) <==>
                  && Ready(p, G.Enter(t.tag)) && AllReady(q, G.WalkAll(t.kids)) && Ready(r, G.Leave(t.tag))
                  && AllReady(Left(r, t.tag), G.WalkAll(ts)))
  {
    assert ([t] + ts)[1..] == ts;
    var e, k, l := [G.Enter(t.tag)], G.WalkAll(t.kids), [G.Leave(t.tag)];
    WrittenConcat(p, e + k + l, G.WalkAll(ts));
    WrittenConcat(p, e + k, l);
    WrittenConcat(p, e, k);
    OneVisit(p, e[0]);
    OneVisit(Written(p, e + k), l[0]);
  }

  lemma MethodVisited(e: Entity, p: Sheet, i: string, o: string)
    requires (e.Argument? && Parses(e.typ)) || e.Annotation?
    requires p.methodArgs == Some((i, o)) && p.signalArgs == None && S.ParseAll(i).Some? && S.ParseAll(o).Some?
    ensures var (x, y) := (i + Part(e, In), o + Part(e, Out));
            && S.ParseAll(x).Some? && S.ParseAll(y).Some?
            && Ready(p, G.Enter(e)) && Visited(p, e) == p.(methodArgs := Some((x, y)))
  {
    PartParses(e, In, i);
    PartParses(e, Out, o);
    ParsesLegible(i + Part(e, In));
    ParsesLegible(o + Part(e, Out));
    assert i + "" == i && o + "" == o;
  }

  lemma {:induction false} MethodFed(ts: seq<Tree<Entity>>, p: Sheet, i: string, o: string)
    requires Leafy(ts) && AllTyped(ts) && p.methodArgs == Some((i, o)) && p.signalArgs == None
    requires S.ParseAll(i).Some? && S.ParseAll(o).Some?
    ensures var (x, y) := (i + Gathered(ts, In), o + Gathered(ts, Out));
            && Written(p, G.WalkAll(ts)) == p.(methodArgs := Some((x, y))) && AllReady(p, G.WalkAll(ts))
            && S.ParseAll(x).Some? && S.ParseAll(y).Some?
    decreases |ts|
  {
    if ts == [] {
      assert i + "" == i && o + "" == o;
    } else {
      var t, e := ts[0], ts[0].tag;
      var x, y := i + Part(e, In), o + Part(e, Out);
      var q := p.(methodArgs := Some((x, y)));
      MethodVisited(e, p, i, o);
      NotesWritten(t.kids, q);
      MethodFed(ts[1..], q, x, y);
      Group(i, Part(e, In), Gathered(ts[1..], In));
      Group(o, Part(e, Out), Gathered(ts[1..], Out));
      Around(p, t, ts[1..]);
      assert ts == [t] + ts[1..];
    }
  }

  lemma SignalVisited(e: Entity, p: Sheet, a: string)
    requires (e.Argument? && Parses(e.typ)) || e.Annotation?
    requires p.methodArgs == None && p.signalArgs == Some(a) && S.ParseAll(a).Some?
    ensures var x := a + Part(e, Direction.Context);
            S.ParseAll(x).Some? && Ready(p, G.Enter(e)) && Visited(p, e) == p.(signalArgs := Some(x))
  {
    PartParses(e, Direction.Context, a);
    ParsesLegible(a + Part(e, Direction.Context));
    assert a + "" == a;
  }

  lemma {:induction false} SignalFed(ts: seq<Tree<Entity>>, p: Sheet, a: string)
    requires Leafy(ts) && AllTyped(ts) && p.methodArgs == None && p.signalArgs == Some(a) && S.ParseAll(a).Some?
    ensures var x := a + Gathered(ts, Direction.Context);
            && Written(p, G.WalkAll(ts)) == p.(signalArgs := Some(x)) && AllReady(p, G.WalkAll(ts))
            && S.ParseAll(x).Some?
    decreases |ts|
  {
    if ts == [] {
      assert a + "" == a;
    } else {
      var t, e := ts[0], ts[0].tag;
      var x := a + Part(e, Direction.Context);
      var q := p.(signalArgs := Some(x));
      SignalVisited(e, p, a);
      NotesWritten(t.kids, q);
      SignalFed(ts[1..], q, x);
      Group(a, Part(e, Direction.Context), Gathered(ts[1..], Direction.Context));
      Around(p, t, ts[1..]);
      assert ts == [t] + ts[1..];
    }
  }

  lemma {:induction false} LeafySources(ts: seq<Tree<Entity>>)
    requires Leafy(ts) || Notes(ts)
    ensures SourcesAll(ts) == []
    decreases ts
  {
    if ts != [] {
      LeafySources(ts[0].kids);
      LeafySources(ts[1..]);
    }
  }

  /** Where no method and no signal is open. */
  predicate Idle(p: Sheet) {
    p.methodArgs == None && p.signalArgs == None
  }

  lemma MethodWritten(t: Tree<Entity>, p: Sheet)
    requires Typed(t) && t.tag.Method? && Idle(p)
    ensures var r := Written(Visited(p, t.tag), G.WalkAll(t.kids));
            && AllReady(Visited(p, t.tag), G.WalkAll(t.kids)) && Ready(r, G.Leave(t.tag))
            && Left(r, t.tag) == p.(lines := p.lines + Lines(Own(t.tag, t.kids)))
  {
    var i, o := Gathered(t.kids, In), Gathered(t.kids, Out);
    MethodFed(t.kids, p.(methodArgs := Some(("", ""))), "", "");
    assert "" + i == i && "" + o == o;
    ParsesFit(i);
    ParsesFit(o);
    TwoLines(Own(t.tag, t.kids));
  }

  lemma SignalWritten(t: Tree<Entity>, p: Sheet)
    requires Typed(t) && t.tag.Signal? && Idle(p)
    ensures var r := Written(Visited(p, t.tag), G.WalkAll(t.kids));
            && AllReady(Visited(p, t.tag), G.WalkAll(t.kids)) && Ready(r, G.Leave(t.tag))
            && Left(r, t.tag) == p.(lines := p.lines + Lines(Own(t.tag, t.kids)))
  {
    var a := Gathered(t.kids, Direction.Context);
    SignalFed(t.kids, p.(signalArgs := Some("")), "");
    assert "" + a == a;
    ParsesFit(a);
    TwoLines(Own(t.tag, t.kids));
  }

  lemma TwoLines(xs: seq<Source>)
    ensures |xs| == 1 ==> Lines(xs) == [Line(xs[0])]
    ensures |xs| == 2 ==> Lines(xs) == [Line(xs[0]), Line(xs[1])]
  {
    if |xs| == 1 {
      assert xs[1..] == [];
    } else if |xs| == 2 {
      assert xs[1..] == [xs[1]] && xs[1..][1..] == [];
    }
  }

  /** What the walk over any elements writes, one after the other. */
  lemma {:induction false} AllWritten(ts: seq<Tree<Entity>>, p: Sheet)
    requires AllTyped(ts) && Idle(p)
    ensures Written(p, G.WalkAll(ts)) == p.(lines := p.lines + Lines(SourcesAll(ts))) && AllReady(p, G.WalkAll(ts))
    decreases ts
  {
    if ts != [] {
      var t := ts[0];
      var q := p.(lines := p.lines + Lines(Own(t.tag, t.kids)));
      var r := q.(lines := q.lines + Lines(SourcesAll(t.kids)));
      assert Typed(t);
      if t.tag.Method? || t.tag.Signal? {
        if t.tag.Method? { MethodWritten(t, p); } else { SignalWritten(t, p); }
        LeafySources(t.kids);
        assert r == q;
      } else {
        OtherVisited(t, p);
        AllWritten(t.kids, q);
      }
      AllWritten(ts[1..], r);
      Around(p, t, ts[1..]);
      assert ts == [t] + ts[1..];
      LinesConcat(Sources(t), SourcesAll(ts[1..]));
      LinesConcat(Own(t.tag, t.kids), SourcesAll(t.kids));
      FourGroups(p.lines, Lines(Own(t.tag, t.kids)), Lines(SourcesAll(t.kids)), Lines(SourcesAll(ts[1..])));
    }
  }

  lemma OtherVisited(t: Tree<Entity>, p: Sheet)
    requires Typed(t) && !t.tag.Method? && !t.tag.Signal? && Idle(p)
    ensures Ready(p, G.Enter(t.tag))
    ensures Visited(p, t.tag) == p.(lines := p.lines + Lines(Own(t.tag, t.kids)))
  {
    if t.tag.Property? {
      ParsesFit(M.CString(t.tag.typ));
      TwoLines(Own(t.tag, t.kids));
    }
  }

  lemma FourGroups<X>(a: seq<X>, b: seq<X>, c: seq<X>, d: seq<X>)
    ensures a + b + c + d == a + ((b + c) + d)
  {
  }

  // ---------------------------------------------------------------- children in order of kind

  lemma {:induction false} GatheredOnly(ts: seq<Tree<Entity>>, which: Direction)
    ensures Gathered(Only(ts, 5, C.RankOf), which) == Gathered(ts, which)
  {
    if ts != [] {
      var rest := Only(ts[1..], 5, C.RankOf);
      GatheredOnly(ts[1..], which);
      if C.RankOf(ts[0]) == 5 {
        assert ([ts[0]] + rest)[1..] == rest;
      } else {
        assert [] + rest == rest && "" + Gathered(ts[1..], which) == Gathered(ts[1..], which);
      }
    }
  }

  lemma {:induction false} GatheredArranged(ts: seq<Tree<Entity>>, which: Direction)
    ensures Gathered(C.ArrangedAll(ts), which) == Gathered(ts, which)
  {
    if ts != [] {
      GatheredArranged(ts[1..], which);
      assert C.ArrangedAll(ts)[1..] == C.ArrangedAll(ts[1..]);
    }
  }

  /** Sorting by kind keeps arguments in their order. */
  lemma GatheredSorted(ts: seq<Tree<Entity>>, which: Direction)
    ensures Gathered(H.Sorted(ts), which) == Gathered(ts, which)
  {
    var us := C.ArrangedAll(ts);
    OrderedSorts(us, C.RankOf);
    GatheredOnly(us, which);
    GatheredOnly(Ordered(us, C.RankOf), which);
    GatheredArranged(ts, which);
  }

  lemma {:induction false} NotesSorted(ts: seq<Tree<Entity>>)
    requires Notes(ts)
    ensures Notes(H.Sorted(ts))
    decreases ts
  {
    forall j | 0 <= j < |H.Sorted(ts)| ensures H.Sorted(ts)[j].tag.Annotation? && Notes(H.Sorted(ts)[j].kids) {
      var i := H.SortedMember(ts, j);
      NotesSorted(ts[i].kids);
    }
  }

  lemma LeafySorted(ts: seq<Tree<Entity>>)
    requires Leafy(ts)
    ensures Leafy(H.Sorted(ts))
  {
    var us := H.Sorted(ts);
    forall j | 0 <= j < |us| ensures (us[j].tag.Argument? || us[j].tag.Annotation?) && Notes(us[j].kids) {
      var i := H.SortedMember(ts, j);
      NotesSorted(ts[i].kids);
    }
  }

  lemma {:induction false} ArrangedTyped(t: Tree<Entity>)
    requires Typed(t)
    ensures Typed(C.Arranged(t))
    decreases t
  {
    var us := H.Sorted(t.kids);
    if t.tag.Method? || t.tag.Signal? {
      LeafySorted(t.kids);
    }
    forall j | 0 <= j < |us| ensures Typed(us[j]) {
      var i := H.SortedMember(t.kids, j);
      ArrangedTyped(t.kids[i]);
    }
  }

  /** What some elements write, in any order. */
  function Bag(ts: seq<Tree<Entity>>): multiset<Source> {
    multiset(SourcesAll(ts))
  }

  lemma BagCons(t: Tree<Entity>, ts: seq<Tree<Entity>>)
    ensures Bag([t] + ts) == multiset(Sources(t)) + Bag(ts)
  {
    assert ([t] + ts)[1..] == ts;
  }

  lemma {:induction false} SourcesConcat(ts: seq<Tree<Entity>>, us: seq<Tree<Entity>>)
    ensures SourcesAll(ts + us) == SourcesAll(ts) + SourcesAll(us)
    decreases |ts|
  {
    if ts == [] {
      assert ts + us == us;
    } else {
      assert (ts + us)[1..] == ts[1..] + us;
      SourcesConcat(ts[1..], us);
      Group(Sources(ts[0]), SourcesAll(ts[1..]), SourcesAll(us));
    }
  }

  lemma BagConcat(ts: seq<Tree<Entity>>, us: seq<Tree<Entity>>)
    ensures Bag(ts + us) == Bag(ts) + Bag(us)
  {
    SourcesConcat(ts, us);
  }

  lemma BagOne(t: Tree<Entity>)
    ensures Bag([t]) == multiset(Sources(t))
  {
    BagCons(t, []);
    assert [t] + [] == [t];
  }

  lemma {:induction false} PlaceBag(ts: seq<Tree<Entity>>, t: Tree<Entity>)
    ensures Bag(Place(ts, t, C.RankOf)) == Bag(ts) + multiset(Sources(t))
    decreases |ts|
  {
    if ts == [] {
      BagOne(t);
    } else if C.RankOf(t) < C.RankOf(ts[0]) {
      BagCons(t, ts);
    } else {
      PlaceBag(ts[1..], t);
      BagCons(ts[0], Place(ts[1..], t, C.RankOf));
      BagCons(ts[0], ts[1..]);
      assert ts == [ts[0]] + ts[1..];
    }
  }

  lemma {:induction false} OrderedBag(ts: seq<Tree<Entity>>)
    ensures Bag(Ordered(ts, C.RankOf)) == Bag(ts)
    decreases |ts|
  {
    if ts != [] {
      var n := |ts| - 1;
      OrderedBag(ts[..n]);
      PlaceBag(Ordered(ts[..n], C.RankOf), ts[n]);
      BagConcat(ts[..n], [ts[n]]);
      BagOne(ts[n]);
      assert ts == ts[..n] + [ts[n]];
    }
  }

  /** Ordering children keeps what is written, except for the order. */
  lemma {:induction false} ArrangedBag(t: Tree<Entity>)
    ensures multiset(Sources(C.Arranged(t))) == multiset(Sources(t))
    decreases t, 0
  {
    AllArrangedBag(t.kids);
    OrderedBag(C.ArrangedAll(t.kids));
    GatheredSorted(t.kids, In);
    GatheredSorted(t.kids, Out);
    GatheredSorted(t.kids, Direction.Context);
    assert Own(t.tag, H.Sorted(t.kids)) == Own(t.tag, t.kids);
  }

  lemma {:induction false} AllArrangedBag(ts: seq<Tree<Entity>>)
    ensures Bag(C.ArrangedAll(ts)) == Bag(ts)
    decreases ts, 1
  {
    if ts != [] {
      ArrangedBag(ts[0]);
      AllArrangedBag(ts[1..]);
      BagCons(C.Arranged(ts[0]), C.ArrangedAll(ts[1..]));
      BagCons(ts[0], ts[1..]);
      assert ts == [ts[0]] + ts[1..];
    }
  }

  // ---------------------------------------------------------------- the same, read off the document

  /** The types of the arguments among some elements that have no direction or the one asked for - any, if the word is
      empty - in document order; elements that nobody knows give way to their contents. */
  function ArgTypes(xs: seq<Xml>, word: string): string
    decreases xs, 1
  {
    if xs == [] then "" else ArgType(xs[0], word) + ArgTypes(xs[1..], word)
  }

  function ArgType(x: Xml, word: string): string
    decreases x, 0
  {
    match x
    case Element(tag, a, kids) =>
      if tag == "arg" then ForWord(a, word)
      else if tag == "node" || tag == "interface" || tag == "method" || tag == "signal" || tag == "property"
              || tag == "annotation" then ""
      else ArgTypes(kids, word)
    case EmptyElement(tag, a) => if tag == "arg" then ForWord(a, word) else ""
    case Other => ""
  }

  function ForWord(a: Attributes, word: string): string {
    if word == "" || a.direction == "" || a.direction == word then M.CString(a.typ) else ""
  }

  /** The typedefs a document calls for: of a method, the types of what goes in and of what comes out; of a signal, the
      types of all its arguments; of a property, its own. */
  function Called(tag: string, a: Attributes, kids: seq<Xml>): seq<Source> {
    if tag == "method" then
      [Source(a.name, "ArgumentType", ArgTypes(kids, "in")), Source(a.name, "ResultType", ArgTypes(kids, "out"))]
    else if tag == "signal" then [Source(a.name, "ArgumentType", ArgTypes(kids, ""))]
    else if tag == "property" then [Source(a.name, "ArgumentType", M.CString(a.typ))]
    else []
  }

  function XmlSources(x: Xml): seq<Source>
    decreases x, 0
  {
    match x
    case Element(tag, a, kids) => Called(tag, a, kids) + AllXmlSources(kids)
    case EmptyElement(tag, a) => Called(tag, a, [])
    case Other => []
  }

  function AllXmlSources(xs: seq<Xml>): seq<Source>
    decreases xs, 1
  {
    if xs == [] then [] else XmlSources(xs[0]) + AllXmlSources(xs[1..])
  }

  function Word(which: Direction): string {
    match which
    case Context => ""
    case In => "in"
    case Out => "out"
  }

  lemma {:induction false} GatheredConcat(ts: seq<Tree<Entity>>, us: seq<Tree<Entity>>, which: Direction)
    ensures Gathered(ts + us, which) == Gathered(ts, which) + Gathered(us, which)
    decreases |ts|
  {
    if ts == [] {
      assert ts + us == us;
    } else {
      assert (ts + us)[1..] == ts[1..] + us;
      GatheredConcat(ts[1..], us, which);
      Group(Part(ts[0].tag, which), Gathered(ts[1..], which), Gathered(us, which));
    }
  }

  lemma OneGathered(t: Tree<Entity>, which: Direction)
    ensures Gathered([t], which) == Part(t.tag, which)
  {
    assert [t][1..] == [];
    assert Gathered([], which) == "";
  }

  lemma PartForWord(tag: string, a: Attributes, which: Direction)
    requires EntityOf(tag, a).Some?
    ensures Part(EntityOf(tag, a).value, which) == if tag == "arg" then ForWord(a, Word(which)) else ""
  {
    EntityExactly(tag, a, EntityOf(tag, a).value);
  }

  lemma {:induction false} ArgTypeGathered(x: Xml, which: Direction)
    requires AllFine(EventsOf(x))
    ensures Gathered(StripAll(Splice(x)), which) == ArgType(x, Word(which))
    decreases x, 0
  {
    match x
    case Element(tag, a, kids) =>
      ElementFine(tag, a, kids);
      if Recognised(tag) {
        OneStripped(Doc(EntityOf(tag, a).value, SpliceAll(kids), !Closing(tag)));
        OneGathered(Strip(Splice(x)[0]), which);
        PartForWord(tag, a, which);
      } else {
        ArgTypesGathered(kids, which);
      }
    case EmptyElement(tag, a) =>
      assert Fine(EventsOf(x)[0]);
      if Recognised(tag) {
        OneStripped(Doc(EntityOf(tag, a).value, [], !Closing(tag)));
        OneGathered(Strip(Splice(x)[0]), which);
        PartForWord(tag, a, which);
      }
    case Other =>
  }

  lemma OneStripped(x: Doc<Entity>)
    ensures StripAll([x]) == [Strip(x)]
  {
    assert [x][1..] == [];
  }

  lemma {:induction false} ArgTypesGathered(xs: seq<Xml>, which: Direction)
    requires AllFine(EventsAll(xs))
    ensures Gathered(StripAll(SpliceAll(xs)), which) == ArgTypes(xs, Word(which))
    decreases xs, 1
  {
    if xs != [] {
      ForestFine(xs);
      ArgTypeGathered(xs[0], which);
      ArgTypesGathered(xs[1..], which);
      StripConcat(Splice(xs[0]), SpliceAll(xs[1..]));
      GatheredConcat(StripAll(Splice(xs[0])), StripAll(SpliceAll(xs[1..])), which);
    }
  }

  lemma OwnIsCalled(tag: string, a: Attributes, kids: seq<Xml>)
    requires EntityOf(tag, a).Some? && AllFine(EventsAll(kids))
    ensures Own(EntityOf(tag, a).value, StripAll(SpliceAll(kids))) == Called(tag, a, kids)
  {
    EntityExactly(tag, a, EntityOf(tag, a).value);
    ArgTypesGathered(kids, In);
    ArgTypesGathered(kids, Out);
    ArgTypesGathered(kids, Direction.Context);
  }

  lemma {:induction false} ElementSources(x: Xml)
    requires AllFine(EventsOf(x))
    ensures SourcesAll(StripAll(Splice(x))) == XmlSources(x)
    decreases x, 0
  {
    match x
    case Element(tag, a, kids) =>
      ElementFine(tag, a, kids);
      DocumentSources(kids);
      if Recognised(tag) {
        RecognisedSources(tag, a, kids);
      } else {
        assert [] + AllXmlSources(kids) == AllXmlSources(kids);
      }
    case EmptyElement(tag, a) =>
      assert Fine(EventsOf(x)[0]);
      if Recognised(tag) {
        RecognisedSources(tag, a, []);
        assert Called(tag, a, []) + [] == Called(tag, a, []);
      }
    case Other =>
  }

  lemma RecognisedSources(tag: string, a: Attributes, kids: seq<Xml>)
    requires EntityOf(tag, a).Some? && AllFine(EventsAll(kids))
    ensures SourcesAll(StripAll([Doc(EntityOf(tag, a).value, SpliceAll(kids), !Closing(tag))])) ==
            Called(tag, a, kids) + SourcesAll(StripAll(SpliceAll(kids)))
  {
    var d := Doc(EntityOf(tag, a).value, SpliceAll(kids), !Closing(tag));
    OneStripped(d);
    OwnIsCalled(tag, a, kids);
    assert [Strip(d)][1..] == [];
    assert SourcesAll([Strip(d)]) == Sources(Strip(d)) + [];
  }

  /** The typedefs of a document's tree are those the document calls for, whatever the document. */
  lemma {:induction false} DocumentSources(xs: seq<Xml>)
    requires AllFine(EventsAll(xs))
    ensures SourcesAll(StripAll(SpliceAll(xs))) == AllXmlSources(xs)
    decreases xs, 1
  {
    if xs != [] {
      ForestFine(xs);
      ElementSources(xs[0]);
      DocumentSources(xs[1..]);
      StripConcat(Splice(xs[0]), SpliceAll(xs[1..]));
      SourcesConcat(StripAll(Splice(xs[0])), StripAll(SpliceAll(xs[1..])));
    }
  }

  // ---------------------------------------------------------------- documents with one interface

  /** A property keeps its typedef whatever it swallows; nothing else is changed by what has been misplaced. */
  lemma NestedBag(m: Doc<Entity>, r: seq<Doc<Entity>>, behind: seq<Doc<Entity>>)
    requires m.tag.Property?
    ensures var p := Tree.Node(m.tag, StripAll(m.kids) + H.Nest(r, behind));
            Bag([p] + H.Tail(r, behind)) ==
            multiset(Sources(Strip(m))) + (Bag(H.Nest(r, behind)) + Bag(H.Tail(r, behind)))
  {
    var p := Tree.Node(m.tag, StripAll(m.kids) + H.Nest(r, behind));
    BagCons(p, H.Tail(r, behind));
    BagConcat(StripAll(m.kids), H.Nest(r, behind));
    assert Own(m.tag, p.kids) == Own(m.tag, Strip(m).kids);
  }

  lemma {:induction false} NestBag(ms: seq<Doc<Entity>>, behind: seq<Doc<Entity>>)
    ensures Bag(H.Nest(ms, behind)) + Bag(H.Tail(ms, behind)) == Bag(StripAll(ms)) + Bag(StripAll(behind))
    decreases |ms|
  {
    if ms != [] {
      var m, r := ms[0], ms[1..];
      NestBag(r, behind);
      BagCons(Strip(m), StripAll(r));
      if m.tag.Property? {
        NestedBag(m, r, behind);
        MoveOne(multiset(Sources(Strip(m))), Bag(H.Nest(r, behind)), Bag(H.Tail(r, behind)), Bag(StripAll(r)),
                Bag(StripAll(behind)));
        assert Bag([]) == multiset{};
      } else {
        BagCons(Strip(m), H.Nest(r, behind));
        assert H.Nest(ms, behind) == [Strip(m)] + H.Nest(r, behind) && H.Tail(ms, behind) == H.Tail(r, behind);
        MoveOne(multiset(Sources(Strip(m))), Bag(H.Nest(r, behind)), Bag(H.Tail(r, behind)), Bag(StripAll(r)),
                Bag(StripAll(behind)));
      }
    }
  }

  lemma MoveOne(x: multiset<Source>, a: multiset<Source>, b: multiset<Source>, c: multiset<Source>, d: multiset<Source>)
    requires a + b == c + d
    ensures (x + a) + b == (x + c) + d && x + (a + b) == (x + c) + d
  {
    assert (x + a) + b == x + (a + b);
    assert (x + c) + d == x + (c + d);
  }

  lemma {:induction false} NestTyped(ms: seq<Doc<Entity>>, behind: seq<Doc<Entity>>)
    requires AllTyped(StripAll(ms)) && AllTyped(StripAll(behind))
    ensures AllTyped(H.Nest(ms, behind)) && AllTyped(H.Tail(ms, behind))
    decreases |ms|
  {
    if ms != [] {
      var m, r := ms[0], ms[1..];
      assert StripAll(ms)[0] == Strip(m) && StripAll(ms)[1..] == StripAll(r);
      assert Typed(Strip(m));
      NestTyped(r, behind);
      if m.tag.Property? {
        var us := StripAll(m.kids) + H.Nest(r, behind);
        assert Strip(m).kids == StripAll(m.kids);
        assert AllTyped(StripAll(m.kids));
        assert Typed(Tree.Node(m.tag, us));
      }
    }
  }

  /** What the source calls for: the typedefs of the document, had it been built as it stands. */
  function Wanted(s: H.Sole): seq<Source> {
    SourcesAll(StripAll(s.Kids()))
  }

  /** The typedefs in the order in which they are written. */
  function Given(s: H.Sole): seq<Source> {
    Sources(C.Arranged(s.Built()))
  }

  lemma {:induction false} StripConcat(xs: seq<Doc<Entity>>, ys: seq<Doc<Entity>>)
    ensures StripAll(xs + ys) == StripAll(xs) + StripAll(ys)
    decreases |xs|
  {
    if xs == [] {
      assert xs + ys == ys;
    } else {
      assert (xs + ys)[1..] == xs[1..] + ys;
      StripConcat(xs[1..], ys);
    }
  }

  lemma SoleStripped(s: H.Sole)
    ensures StripAll(s.Kids()) ==
            StripAll(s.before) + [Tree.Node(s.interface, StripAll(s.members))] + StripAll(s.behind)
  {
    var x := Doc(s.interface, s.members, false);
    StripConcat(s.before + [x], s.behind);
    StripConcat(s.before, [x]);
    assert [x][1..] == [];
  }

  lemma SoleTyped(s: H.Sole)
    requires s.Ok() && AllTyped(StripAll(s.Kids()))
    ensures Typed(C.Arranged(s.Built()))
  {
    var us := StripAll(s.Kids());
    var n := |StripAll(s.before)|;
    SoleStripped(s);
    forall i | 0 <= i < n ensures Typed(StripAll(s.before)[i]) { assert us[i] == StripAll(s.before)[i]; }
    forall i | 0 <= i < |StripAll(s.behind)| ensures Typed(StripAll(s.behind)[i]) {
      assert us[n + 1 + i] == StripAll(s.behind)[i];
    }
    assert Typed(us[n]) && us[n].kids == StripAll(s.members);
    NestTyped(s.members, s.behind);
    assert Typed(s.Inner());
    ArrangedTyped(s.Built());
  }

  /** However far properties have misplaced what follows them, the typedefs written are those of the document. */
  lemma GivenIsWanted(s: H.Sole)
    requires s.Ok()
    ensures multiset(Given(s)) == multiset(Wanted(s))
  {
    ArrangedBag(s.Built());
    SoleStripped(s);
    NestBag(s.members, s.behind);
    var a, i, z := StripAll(s.before), s.Inner(), H.Tail(s.members, s.behind);
    var j, b := Tree.Node(s.interface, StripAll(s.members)), StripAll(s.behind);
    RowBag(a, i, z);
    RowBag(a, j, b);
    MoveMiddle(Bag(a), Bag(i.kids), Bag(z), Bag(j.kids), Bag(b));
    assert [] + SourcesAll(s.Siblings()) == SourcesAll(s.Siblings());
  }

  lemma RowBag(a: seq<Tree<Entity>>, i: Tree<Entity>, b: seq<Tree<Entity>>)
    requires i.tag.Interface?
    ensures Bag(a + [i] + b) == Bag(a) + Bag(i.kids) + Bag(b)
  {
    BagConcat(a + [i], b);
    BagConcat(a, [i]);
    BagOne(i);
    assert [] + SourcesAll(i.kids) == SourcesAll(i.kids);
  }

  lemma MoveMiddle(x: multiset<Source>, a: multiset<Source>, b: multiset<Source>, c: multiset<Source>,
                   d: multiset<Source>)
    requires a + b == c + d
    ensures x + a + b == x + c + d
  {
    assert x + a + b == x + (a + b);
    assert x + c + d == x + (c + d);
  }

  // ---------------------------------------------------------------- right types

  /** The shapes a source's signature has. */
  function Shapes(x: Source): seq<S.Shape> {
    match S.ParseAll(x.signature)
    case Some(ss) => ss
    case None => []
  }

  /** The line as it should be. */
  function RightLine(x: Source): Typedef {
    Typedef(x.struct, x.alias, N.CppSignature(Shapes(x)))
  }

  function RightLines(xs: seq<Source>): seq<Typedef> {
    if xs == [] then [] else [RightLine(xs[0])] + RightLines(xs[1..])
  }

  predicate AllParse(xs: seq<Source>) {
    forall i | 0 <= i < |xs| :: S.ParseAll(xs[i].signature).Some?
  }

  lemma LineRight(x: Source)
    requires S.ParseAll(x.signature).Some?
    ensures Line(x) == RightLine(x) <==> ST.NothingAfterArray(Shapes(x))
  {
    P.PrintedExactly(x.signature, Shapes(x));
  }

  predicate AllRight(xs: seq<Source>) {
    xs == [] || (ST.NothingAfterArray(Shapes(xs[0])) && AllRight(xs[1..]))
  }

  lemma {:induction false} RightMembers(xs: seq<Source>)
    ensures AllRight(xs) <==> forall x | x in xs :: ST.NothingAfterArray(Shapes(x))
  {
    if xs != [] {
      RightMembers(xs[1..]);
      assert forall x :: x in xs <==> x == xs[0] || x in xs[1..];
    }
  }

  lemma SameCons<X>(a: X, b: X, c: seq<X>, d: seq<X>)
    ensures [a] + c == [b] + d <==> a == b && c == d
  {
    if [a] + c == [b] + d {
      assert a == ([a] + c)[0] && b == ([b] + d)[0];
      DropFront([a], c, d);
    }
  }

  lemma {:induction false} LinesRight(xs: seq<Source>)
    requires AllParse(xs)
    ensures Lines(xs) == RightLines(xs) <==> AllRight(xs)
  {
    if xs != [] {
      LineRight(xs[0]);
      assert AllParse(xs[1..]);
      LinesRight(xs[1..]);
      SameCons(Line(xs[0]), RightLine(xs[0]), Lines(xs[1..]), RightLines(xs[1..]));
    }
  }

  lemma {:induction false} GatheredParses(ts: seq<Tree<Entity>>, which: Direction)
    requires AllTyped(ts)
    ensures S.ParseAll(Gathered(ts, which)).Some?
  {
    if ts != [] {
      assert Typed(ts[0]);
      GatheredParses(ts[1..], which);
      assert "" + Part(ts[0].tag, which) == Part(ts[0].tag, which);
      PartParses(ts[0].tag, which, "");
      P.ParseConcat(Part(ts[0].tag, which), Gathered(ts[1..], which), S.ParseAll(Part(ts[0].tag, which)).value,
                    S.ParseAll(Gathered(ts[1..], which)).value);
    }
  }

  lemma OwnParses(t: Tree<Entity>)
    requires Typed(t)
    ensures AllParse(Own(t.tag, t.kids))
  {
    GatheredParses(t.kids, In);
    GatheredParses(t.kids, Out);
    GatheredParses(t.kids, Direction.Context);
  }

  lemma {:induction false} TypedParses(ts: seq<Tree<Entity>>)
    requires AllTyped(ts)
    ensures AllParse(SourcesAll(ts))
    decreases ts
  {
    if ts != [] {
      assert Typed(ts[0]);
      OwnParses(ts[0]);
      TypedParses(ts[0].kids);
      TypedParses(ts[1..]);
    }
  }

  /** The typedefs in the header of a document. */
  ghost function HeaderTypes(xs: seq<Doc<Entity>>): seq<Typedef>
    requires Through(xs)
  {
    Written(BLANK, G.Walk(C.Arranged(Grown(xs)))).lines
  }

  /** Parsing, compiling and generating, as far as types go. */
  method Generate(xs: seq<Xml>) returns (lines: seq<Typedef>)
    requires AllFine(EventsAll(xs)) && Through(SpliceAll(xs))
    requires AllReady(BLANK, G.Walk(C.Arranged(Grown(SpliceAll(xs)))))
    ensures lines == HeaderTypes(SpliceAll(xs))
  {
    var compiler := new C.Context();
    var generator := new Context();
    var outcome := compiler.Process(xs);
    generator.Apply(C.View(compiler.elements, 0));
    lines := generator.buffer;
  }

  lemma RootWritten(t: Tree<Entity>)
    requires Typed(t) && t.tag.Node?
    ensures AllReady(BLANK, G.Walk(t)) && Written(BLANK, G.Walk(t)).lines == Lines(Sources(t))
  {
    WrittenConcat(BLANK, [G.Enter(t.tag)], G.WalkAll(t.kids));
    OneVisit(BLANK, G.Enter(t.tag));
    AllWritten(t.kids, BLANK);
    assert [] + Lines(SourcesAll(t.kids)) == Lines(SourcesAll(t.kids));
    assert [] + SourcesAll(t.kids) == SourcesAll(t.kids);
  }

  /** The header of a document with one interface has two typedefs for every method and one for every signal and
      property, in some order.  All of them are right exactly when in the arguments of no method in one direction, put
      one behind the other, of no signal, and in no property a type follows a completed array. */
  lemma TypesRight(s: H.Sole)
    requires s.Ok() && AllTyped(StripAll(s.Kids()))
    ensures AllReady(BLANK, G.Walk(C.Arranged(Grown([s.Document()]))))
    ensures var lines := HeaderTypes([s.Document()]);
            && lines == Lines(Given(s)) && multiset(Given(s)) == multiset(Wanted(s))
            && (lines == RightLines(Given(s)) <==> forall x | x in Wanted(s) :: ST.NothingAfterArray(Shapes(x)))
  {
    var t := C.Arranged(s.Built());
    H.NestBuilt(s);
    SoleTyped(s);
    RootWritten(t);
    GivenIsWanted(s);
    OwnParses(t);
    TypedParses(t.kids);
    LinesRight(Given(s));
    RightMembers(Given(s));
    SameMembers(Given(s), Wanted(s));
  }

  lemma SameMembers(xs: seq<Source>, ys: seq<Source>)
    requires multiset(xs) == multiset(ys)
    ensures forall x :: x in xs <==> x in ys
  {
    forall x ensures x in xs <==> x in ys {
      assert x in multiset(xs) <==> x in multiset(ys);
    }
  }

  /** A node with one interface with one method with two arguments for the call. */
  function TwoArguments(node: string, interface: string, name: string, x: string, y: string): H.Sole {
    var args := [Doc(Argument("a", x, In), [], false), Doc(Argument("b", y, In), [], false)];
    H.Sole(Entity.Node(node), [], Interface(interface), [Doc(Method(name), args, false)], [])
  }

  lemma PairGathered(t: Tree<Entity>, u: Tree<Entity>, which: Direction)
    ensures Gathered([t, u], which) == Part(t.tag, which) + Part(u.tag, which)
  {
    assert [t, u][1..] == [u] && [u][1..] == [];
    assert Gathered([], which) == "";
    assert Gathered([u], which) == Part(u.tag, which) + "" == Part(u.tag, which);
  }

  lemma MethodOfTwo(name: string, t: Tree<Entity>, u: Tree<Entity>)
    requires t.tag.Argument? && u.tag.Argument? && t.tag.direction == In && u.tag.direction == In
    requires Parses(t.tag.typ) && Parses(u.tag.typ) && t.kids == [] && u.kids == []
    ensures var m := Tree.Node(Method(name), [t, u]);
            && Typed(m)
            && Sources(m) == [Source(name, "ArgumentType", M.CString(t.tag.typ) + M.CString(u.tag.typ)),
                              Source(name, "ResultType", "")]
  {
    assert Typed(t) && Typed(u) && Leafy([t, u]);
    PairGathered(t, u, In);
    PairGathered(t, u, Out);
    LeafySources([t, u]);
  }

  lemma OneSource(e: Entity, t: Tree<Entity>)
    requires e.Interface? || e.Node?
    ensures Sources(Tree.Node(e, [t])) == Sources(t) && SourcesAll([t]) == Sources(t)
  {
    assert [t][1..] == [];
    assert SourcesAll([t]) == Sources(t) + [];
  }

  lemma TwoWanted(node: string, interface: string, name: string, x: string, y: string)
    requires Parses(x) && Parses(y)
    ensures var s := TwoArguments(node, interface, name, x, y);
            && s.Ok() && AllTyped(StripAll(s.Kids()))
            && Wanted(s) == [Source(name, "ArgumentType", M.CString(x) + M.CString(y)), Source(name, "ResultType", "")]
  {
    var a, b := Doc(Argument("a", x, In), [], false), Doc(Argument("b", y, In), [], false);
    var m := Doc(Method(name), [a, b], false);
    var s := TwoArguments(node, interface, name, x, y);
    assert [a, b][1..] == [b] && [b][1..] == [] && [m][1..] == [];
    assert H.Quiet([b]) && H.Quiet([a, b]);
    assert StripAll([b]) == [Strip(b)] && StripAll([a, b]) == [Strip(a), Strip(b)] && StripAll([m]) == [Strip(m)];
    MethodOfTwo(name, Strip(a), Strip(b));
    var n := Tree.Node(s.interface, [Strip(m)]);
    SoleStripped(s);
    assert StripAll(s.Kids()) == [n];
    assert Typed(n);
    OneSource(s.interface, Strip(m));
    OneSource(s.root, n);
  }

  lemma ArrayThenIntegerWrong()
    ensures S.ParseAll("asi").Some? && !ST.NothingAfterArray(S.ParseAll("asi").value)
  {
    ST.ArrayThenInteger();
    ST.MangledExactly("asi", S.ParseAll("asi").value);
  }

  lemma TwoParse()
    ensures Parses("as") && Parses("i") && M.CString("as") + M.CString("i") == "asi"
  {
    P.ArrayThenArgument();
  }

  lemma SourceWrong(s: H.Sole, x: Source)
    requires s.Ok() && AllTyped(StripAll(s.Kids())) && x in Wanted(s) && !ST.NothingAfterArray(Shapes(x))
    ensures HeaderTypes([s.Document()]) != RightLines(Given(s))
  {
    TypesRight(s);
  }

  /** From the document to the types in its header: Generate writes, in some order, one type for everything the document
      calls for. */
  lemma GeneratedTypes(xs: seq<Xml>, s: H.Sole)
    requires AllFine(EventsAll(xs)) && SpliceAll(xs) == [s.Document()]
    requires s.Ok() && AllTyped(StripAll(s.Kids()))
    ensures HeaderTypes(SpliceAll(xs)) == Lines(Given(s)) && multiset(Given(s)) == multiset(AllXmlSources(xs))
    ensures HeaderTypes(SpliceAll(xs)) == RightLines(Given(s)) <==>
            forall x | x in AllXmlSources(xs) :: ST.NothingAfterArray(Shapes(x))
  {
    TypesRight(s);
    DocumentSources(xs);
    OneStripped(s.Document());
    OneSources(s);
  }

  lemma OneSources(s: H.Sole)
    requires s.Ok()
    ensures SourcesAll([Strip(s.Document())]) == Wanted(s)
  {
    var t := Strip(s.Document());
    assert [t][1..] == [];
    assert SourcesAll([t]) == Sources(t) + [] == [] + SourcesAll(t.kids);
  }

  /** A method with two arguments, an array of strings and an integer: its ArgumentType is wrong. */
  lemma ArrayThenArgument(node: string, interface: string, name: string)
    ensures var s := TwoArguments(node, interface, name, "as", "i");
            && s.Ok() && AllTyped(StripAll(s.Kids()))
            && Source(name, "ArgumentType", "asi") in Wanted(s)
            && HeaderTypes([s.Document()]) != RightLines(Given(s))
  {
    var s := TwoArguments(node, interface, name, "as", "i");
    TwoParse();
    TwoWanted(node, interface, name, "as", "i");
    ArrayThenIntegerWrong();
    SourceWrong(s, Source(name, "ArgumentType", "asi"));
  }
}
