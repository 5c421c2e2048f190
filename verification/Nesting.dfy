/**
 Which struct of a generated header stands inside which (src/core/dbus/generator.cpp:683-889), for documents with one
 interface.
 */
module Nesting {
  import opened CursorTree
  import opened Introspection
  import opened KindOrder
  import opened Sequences
  import C = Compiler
  import G = Generator
  import H = Headers

  /** A struct or namespace and what is open around it, outermost first. */
  datatype Place = Place(head: string, inside: seq<string>)

  function Pop(st: seq<string>): seq<string> {
    if st == [] then [] else st[..|st| - 1]
  }

  /** What is opened where, if `st` is open to begin with. */
  function Opened(ls: seq<G.Line>, st: seq<string>): seq<Place> {
    if ls == [] then []
    else if ls[0].Opening? then [Place(ls[0].head, st)] + Opened(ls[1..], st + [ls[0].head])
    else Opened(ls[1..], Pop(st))
  }

  /** What is open in the end. */
  function Stack(ls: seq<G.Line>, st: seq<string>): seq<string> {
    if ls == [] then st else Stack(ls[1..], if ls[0].Opening? then st + [ls[0].head] else Pop(st))
  }

  lemma {:induction false} OpenedConcat(a: seq<G.Line>, b: seq<G.Line>, st: seq<string>)
    ensures Stack(a + b, st) == Stack(b, Stack(a, st))
    ensures Opened(a + b, st) == Opened(a, st) + Opened(b, Stack(a, st))
    decreases |a|
  {
    if a == [] {
      assert a + b == b;
    } else {
      assert (a + b)[1..] == a[1..] + b;
      OpenedConcat(a[1..], b, if a[0].Opening? then st + [a[0].head] else Pop(st));
    }
  }

  /** What a page has opened, in any order, and what is open at its end. */
  function Seen(p: G.Page): multiset<Place> {
    multiset(Opened(p.lines, []))
  }

  function Top(p: G.Page): seq<string> {
    Stack(p.lines, [])
  }

  /** One more line. */
  lemma OneLine(ls: seq<G.Line>, l: G.Line)
    ensures Stack(ls + [l], []) == if l.Opening? then Stack(ls, []) + [l.head] else Pop(Stack(ls, []))
    ensures multiset(Opened(ls + [l], [])) ==
            multiset(Opened(ls, [])) + if l.Opening? then multiset{Place(l.head, Stack(ls, []))} else multiset{}
  {
    OpenedConcat(ls, [l], []);
    assert [l][1..] == [];
    assert Opened([l], Stack(ls, [])) == if l.Opening? then [Place(l.head, Stack(ls, []))] else [];
  }

  lemma MaybeLine(ls: seq<G.Line>, c: bool, l: G.Line)
    ensures var ms := ls + if c then [l] else [];
            && Stack(ms, []) == (if !c then Stack(ls, [])
                                 else if l.Opening? then Stack(ls, []) + [l.head] else Pop(Stack(ls, [])))
            && multiset(Opened(ms, [])) == multiset(Opened(ls, [])) +
               if c && l.Opening? then multiset{Place(l.head, Stack(ls, []))} else multiset{}
  {
    if c {
      OneLine(ls, l);
    } else {
      assert ls + [] == ls;
    }
  }

  // ---------------------------------------------------------------- single visits

  function Struct(e: Entity): string {
    "struct " + e.name
  }

  const SIGNALS := "struct Signals"
  const PROPERTIES := "struct Properties"

  /** What is written about elements that have no struct of their own: nothing. */
  predicate Mute(e: Entity) {
    e.Node? || e.Argument? || e.Annotation?
  }

  predicate Silent(ts: seq<Tree<Entity>>)
    decreases ts
  {
    forall i | 0 <= i < |ts| :: Mute(ts[i].tag) && Silent(ts[i].kids)
  }

  lemma {:induction false} SilentWritten(ts: seq<Tree<Entity>>, p: G.Page)
    requires Silent(ts)
    ensures G.Written(p, G.WalkAll(ts)) == p
    decreases ts
  {
    if ts != [] {
      SilentWritten(ts[0].kids, p);
      SilentWritten(ts[1..], p);
      assert ts[0..] == ts;
      TreeWritten(p, ts[0]);
      G.ChildWritten(p, ts, 0);
    }
  }

  lemma TreeWritten(p: G.Page, t: Tree<Entity>)
    ensures G.Written(p, G.Walk(t)) == G.Written(G.Visited(p, t.tag), G.WalkAll(t.kids))
  {
    assert G.Walk(t)[1..] == G.WalkAll(t.kids);
  }

  /** A child that opens nothing, or only its own struct, all within that of the signals if it is a signal. */
  predicate Flat(t: Tree<Entity>) {
    (Mute(t.tag) || t.tag.Method? || t.tag.Signal?) && Silent(t.kids)
  }

  predicate AllFlat(ts: seq<Tree<Entity>>) {
    forall i | 0 <= i < |ts| :: Flat(ts[i])
  }

  function FlatPage(p: G.Page, t: Tree<Entity>): G.Page {
    G.Left(G.Written(p, G.Walk(t)), t.tag)
  }

  lemma FlatVisited(p: G.Page, t: Tree<Entity>)
    requires Flat(t)
    ensures FlatPage(p, t) == G.Left(G.Visited(p, t.tag), t.tag)
  {
    TreeWritten(p, t);
    SilentWritten(t.kids, G.Visited(p, t.tag));
  }

  lemma MethodPlaced(p: G.Page, t: Tree<Entity>)
    requires Flat(t) && t.tag.Method?
    ensures var q := FlatPage(p, t);
            && Seen(q) == Seen(p) + multiset{Place(Struct(t.tag), Top(p))} && Top(q) == Top(p)
            && q.signals == p.signals && q.properties == p.properties
  {
    FlatVisited(p, t);
    OneLine(p.lines, G.Opening(Struct(t.tag)));
    OneLine(p.lines + [G.Opening(Struct(t.tag))], G.Closing);
  }

  lemma SignalPlaced(p: G.Page, t: Tree<Entity>)
    requires Flat(t) && t.tag.Signal?
    ensures var q := FlatPage(p, t);
            var st := if p.signals == 0 then Top(p) + [SIGNALS] else Top(p);
            && Seen(q) == Seen(p) + (if p.signals == 0 then multiset{Place(SIGNALS, Top(p))} else multiset{})
                          + multiset{Place(Struct(t.tag), st)}
            && Top(q) == st && q.signals == p.signals + 1 && q.properties == p.properties
  {
    FlatVisited(p, t);
    var first := if p.signals == 0 then [G.Opening(SIGNALS)] else [];
    OneLine(p.lines, G.Opening(SIGNALS));
    assert p.lines + [] == p.lines;
    OneLine(p.lines + first, G.Opening(Struct(t.tag)));
    OneLine(p.lines + first + [G.Opening(Struct(t.tag))], G.Closing);
  }

  /** Entering a property closes the struct around the signals, if there has been one, or else what is open. */
  lemma PropertyPlaced(p: G.Page, e: Entity)
    requires e.Property?
    ensures var q := G.Visited(p, e);
            var st := if p.signals > 0 then Pop(Top(p)) else Top(p);
            var su := if p.properties == 0 then st + [PROPERTIES] else st;
            && Seen(q) == Seen(p) + (if p.properties == 0 then multiset{Place(PROPERTIES, st)} else multiset{})
                          + multiset{Place(Struct(e), su)}
            && Top(q) == su + [Struct(e)] && q.signals == p.signals && q.properties == p.properties + 1
  {
    var r := BeforeProperty(p);
    BeforePropertyPlaced(p);
    OneLine(r.lines, G.Opening(Struct(e)));
    assert G.Visited(p, e).lines == r.lines + [G.Opening(Struct(e))];
  }

  function BeforeProperty(p: G.Page): G.Page {
    p.(lines := p.lines + (if p.signals > 0 then [G.Closing] else [])
                + if p.properties == 0 then [G.Opening(PROPERTIES)] else [])
  }

  lemma BeforePropertyPlaced(p: G.Page)
    ensures var r := BeforeProperty(p);
            var st := if p.signals > 0 then Pop(Top(p)) else Top(p);
            && Seen(r) == Seen(p) + (if p.properties == 0 then multiset{Place(PROPERTIES, st)} else multiset{})
            && Top(r) == if p.properties == 0 then st + [PROPERTIES] else st
  {
    MaybeLine(p.lines, p.signals > 0, G.Closing);
    MaybeLine(p.lines + (if p.signals > 0 then [G.Closing] else []), p.properties == 0, G.Opening(PROPERTIES));
  }

  // ---------------------------------------------------------------- the children of an interface or a property

  /** Methods stand in one place, signals in another. */
  function Both(es: seq<Entity>, st: seq<string>, su: seq<string>): multiset<Place> {
    if es == [] then multiset{}
    else
      (if es[0].Method? then multiset{Place(Struct(es[0]), st)}
       else if es[0].Signal? then multiset{Place(Struct(es[0]), su)} else multiset{})
      + Both(es[1..], st, su)
  }

  predicate HasSignal(es: seq<Entity>) {
    exists e :: e in es && e.Signal?
  }

  /** Methods stand right inside; signals in the struct around signals if they are the first of the header and those
      with them, else right inside, too. */
  function Spread(es: seq<Entity>, st: seq<string>, seen: bool): multiset<Place> {
    Both(es, st, if seen then st else st + [SIGNALS])
    + if !seen && HasSignal(es) then multiset{Place(SIGNALS, st)} else multiset{}
  }

  function Kinds(ts: seq<Tree<Entity>>): seq<Entity> {
    if ts == [] then [] else [ts[0].tag] + Kinds(ts[1..])
  }

  lemma {:induction false} BothConcat(es: seq<Entity>, fs: seq<Entity>, st: seq<string>, su: seq<string>)
    ensures Both(es + fs, st, su) == Both(es, st, su) + Both(fs, st, su)
    decreases |es|
  {
    if es == [] {
      assert es + fs == fs;
    } else {
      assert (es + fs)[1..] == es[1..] + fs;
      BothConcat(es[1..], fs, st, su);
    }
  }

  lemma {:induction false} KindsConcat(ts: seq<Tree<Entity>>, us: seq<Tree<Entity>>)
    ensures Kinds(ts + us) == Kinds(ts) + Kinds(us)
    decreases |ts|
  {
    if ts == [] {
      assert ts + us == us;
    } else {
      assert (ts + us)[1..] == ts[1..] + us;
      KindsConcat(ts[1..], us);
    }
  }

  lemma {:induction false} KindsAt(ts: seq<Tree<Entity>>)
    ensures |Kinds(ts)| == |ts| && forall i | 0 <= i < |ts| :: Kinds(ts)[i] == ts[i].tag
  {
    if ts != [] {
      KindsAt(ts[1..]);
    }
  }

  lemma ArrangedKinds(ts: seq<Tree<Entity>>)
    ensures Kinds(C.ArrangedAll(ts)) == Kinds(ts)
  {
    KindsAt(ts);
    KindsAt(C.ArrangedAll(ts));
  }

  lemma WithoutFirst(ts: seq<Tree<Entity>>, us: seq<Tree<Entity>>) returns (i: nat)
    requires ts != [] && multiset(ts) == multiset(us)
    ensures i < |us| && us[i] == ts[0] && multiset(ts[1..]) == multiset(us[..i] + us[i + 1..])
  {
    assert ts[0] in multiset(us);
    i :| 0 <= i < |us| && us[i] == ts[0];
    Middle(us, i);
    assert ts == [ts[0]] + ts[1..];
    assert multiset(us) == multiset(us[..i]) + multiset{us[i]} + multiset(us[i + 1..]);
    assert multiset(ts) == multiset{ts[0]} + multiset(ts[1..]);
    assert multiset(us[..i] + us[i + 1..]) == multiset(us[..i]) + multiset(us[i + 1..]);
    forall x ensures multiset(ts[1..])[x] == multiset(us[..i] + us[i + 1..])[x] {
      assert multiset(ts)[x] == multiset(us)[x];
    }
  }

  /** What stands where does not depend on the order. */
  lemma {:induction false} SameBoth(ts: seq<Tree<Entity>>, us: seq<Tree<Entity>>, st: seq<string>, su: seq<string>)
    requires multiset(ts) == multiset(us)
    ensures Both(Kinds(ts), st, su) == Both(Kinds(us), st, su)
    decreases |ts|
  {
    if ts == [] {
      assert |multiset(us)| == 0;
      assert us == [];
    } else {
      var i := WithoutFirst(ts, us);
      var vs := us[..i] + us[i + 1..];
      Middle(us, i);
      assert ts == [ts[0]] + ts[1..];
      SameBoth(ts[1..], vs, st, su);
      MiddleBoth(us[..i], us[i], us[i + 1..], st, su);
      KindsConcat([ts[0]], ts[1..]);
      BothConcat(Kinds([ts[0]]), Kinds(ts[1..]), st, su);
    }
  }

  lemma MiddleBoth(a: seq<Tree<Entity>>, x: Tree<Entity>, b: seq<Tree<Entity>>, st: seq<string>, su: seq<string>)
    ensures Both(Kinds(a + [x] + b), st, su) == Both(Kinds([x]), st, su) + Both(Kinds(a + b), st, su)
  {
    KindsConcat(a + [x], b);
    KindsConcat(a, [x]);
    KindsConcat(a, b);
    BothConcat(Kinds(a) + Kinds([x]), Kinds(b), st, su);
    BothConcat(Kinds(a), Kinds([x]), st, su);
    BothConcat(Kinds(a), Kinds(b), st, su);
  }

  lemma HasSignalKinds(ts: seq<Tree<Entity>>)
    ensures HasSignal(Kinds(ts)) <==> exists i :: 0 <= i < |ts| && ts[i].tag.Signal?
  {
    KindsAt(ts);
    if HasSignal(Kinds(ts)) {
      var e :| e in Kinds(ts) && e.Signal?;
      var i :| 0 <= i < |ts| && Kinds(ts)[i] == e;
      assert ts[i].tag.Signal?;
    }
    if i :| 0 <= i < |ts| && ts[i].tag.Signal? {
      assert Kinds(ts)[i] in Kinds(ts);
    }
  }

  lemma SameSignals(ts: seq<Tree<Entity>>, us: seq<Tree<Entity>>)
    requires multiset(ts) == multiset(us) && HasSignal(Kinds(ts))
    ensures HasSignal(Kinds(us))
  {
    HasSignalKinds(ts);
    HasSignalKinds(us);
    var i :| 0 <= i < |ts| && ts[i].tag.Signal?;
    assert ts[i] in multiset(us);
    var j :| 0 <= j < |us| && us[j] == ts[i];
  }

  lemma {:induction false} NoMethods(es: seq<Entity>, st: seq<string>, sv: seq<string>, su: seq<string>)
    requires forall i | 0 <= i < |es| :: !es[i].Method?
    ensures Both(es, st, su) == Both(es, sv, su)
  {
    if es != [] {
      NoMethods(es[1..], st, sv, su);
    }
  }

  lemma {:induction false} NoneBusy(es: seq<Entity>, st: seq<string>, su: seq<string>)
    requires forall i | 0 <= i < |es| :: Mute(es[i])
    ensures Both(es, st, su) == multiset{} && !HasSignal(es)
  {
    if es != [] {
      NoneBusy(es[1..], st, su);
    }
  }

  /** One child more. */
  lemma {:induction false} HeadSpread(us: seq<Tree<Entity>>, st: seq<string>, seen: bool)
    requires us != []
    ensures var e, fs := us[0].tag, Kinds(us[1..]);
            && HasSignal(Kinds(us)) == (e.Signal? || HasSignal(fs))
            && (e.Method? ==> Spread(Kinds(us), st, seen) == multiset{Place(Struct(e), st)} + Spread(fs, st, seen))
            && (Mute(e) ==> Spread(Kinds(us), st, seen) == Spread(fs, st, seen))
            && (e.Signal? && seen ==>
                  Spread(Kinds(us), st, seen) == multiset{Place(Struct(e), st)} + Spread(fs, st, seen))
  {
    var e, es, fs := us[0].tag, Kinds(us), Kinds(us[1..]);
    var su := if seen then st else st + [SIGNALS];
    var first := if !seen && HasSignal(fs) then multiset{Place(SIGNALS, st)} else multiset{};
    HeadBoth(us, st, su);
    Regroup3(multiset{Place(Struct(e), st)}, Both(fs, st, su), first);
    assert e.Method? || Mute(e) || seen ==>
        Spread(es, st, seen) == Both(es, st, su) + first && Spread(fs, st, seen) == Both(fs, st, su) + first;
  }

  lemma Regroup3(a: multiset<Place>, b: multiset<Place>, c: multiset<Place>)
    ensures a + b + c == a + (b + c) && multiset{} + b == b
  {
  }

  lemma HeadBoth(us: seq<Tree<Entity>>, st: seq<string>, su: seq<string>)
    requires us != []
    ensures var e, fs := us[0].tag, Kinds(us[1..]);
            && HasSignal(Kinds(us)) == (e.Signal? || HasSignal(fs))
            && Both(Kinds(us), st, su) ==
               (if e.Method? then multiset{Place(Struct(e), st)}
                else if e.Signal? then multiset{Place(Struct(e), su)} else multiset{}) + Both(fs, st, su)
  {
    var es, fs := Kinds(us), Kinds(us[1..]);
    assert es == [us[0].tag] + fs;
    assert forall e :: e in es <==> e == us[0].tag || e in fs;
    assert es[1..] == fs;
  }

  /** The first signal of all; methods do not follow. */
  lemma {:induction false} FirstSpread(us: seq<Tree<Entity>>, st: seq<string>)
    requires us != [] && us[0].tag.Signal? && Ascending(us, C.RankOf)
    ensures var e, fs := us[0].tag, Kinds(us[1..]);
            Spread(Kinds(us), st, false) ==
            multiset{Place(SIGNALS, st)} + multiset{Place(Struct(e), st + [SIGNALS])} + Spread(fs, st + [SIGNALS], true)
  {
    var es, fs := Kinds(us), Kinds(us[1..]);
    assert es == [us[0].tag] + fs;
    assert es[0] in es && es[1..] == fs;
    BehindSignal(us);
    NoMethods(fs, st, st + [SIGNALS], st + [SIGNALS]);
  }

  /** What a row of plain children does to a page. */
  ghost predicate Rowed(p: G.Page, us: seq<Tree<Entity>>, q: G.Page) {
    var es := Kinds(us);
    && Seen(q) == Seen(p) + Spread(es, Top(p), p.signals > 0)
    && Top(q) == (if p.signals == 0 && HasSignal(es) then Top(p) + [SIGNALS] else Top(p))
    && (q.signals > 0 <==> p.signals > 0 || HasSignal(es)) && q.properties == p.properties
  }

  lemma {:induction false} MethodRowed(p: G.Page, us: seq<Tree<Entity>>, q: G.Page)
    requires us != [] && Flat(us[0]) && us[0].tag.Method? && Rowed(FlatPage(p, us[0]), us[1..], q)
    ensures Rowed(p, us, q)
  {
    HeadSpread(us, Top(p), p.signals > 0);
    MethodPlaced(p, us[0]);
  }

  lemma {:induction false} LaterRowed(p: G.Page, us: seq<Tree<Entity>>, q: G.Page)
    requires us != [] && Flat(us[0]) && us[0].tag.Signal? && Rowed(FlatPage(p, us[0]), us[1..], q) && p.signals > 0
    ensures Rowed(p, us, q)
  {
    HeadSpread(us, Top(p), true);
    SignalPlaced(p, us[0]);
  }

  lemma {:induction false} FirstRowed(p: G.Page, us: seq<Tree<Entity>>, q: G.Page)
    requires us != [] && Flat(us[0]) && us[0].tag.Signal? && Rowed(FlatPage(p, us[0]), us[1..], q) && p.signals == 0
    requires Ascending(us, C.RankOf)
    ensures Rowed(p, us, q)
  {
    HeadSpread(us, Top(p), false);
    FirstSpread(us, Top(p));
    SignalPlaced(p, us[0]);
  }

  lemma {:induction false} MuteRowed(p: G.Page, us: seq<Tree<Entity>>, q: G.Page)
    requires us != [] && Flat(us[0]) && Mute(us[0].tag) && Rowed(FlatPage(p, us[0]), us[1..], q)
    ensures Rowed(p, us, q)
  {
    HeadSpread(us, Top(p), p.signals > 0);
    FlatVisited(p, us[0]);
  }

  /** The walk over plain children in order of kind. */
  lemma {:induction false} PlainWalk(us: seq<Tree<Entity>>, p: G.Page)
    requires AllFlat(us) && Ascending(us, C.RankOf)
    ensures Rowed(p, us, G.Written(p, G.WalkAll(us)))
    decreases |us|
  {
    if us != [] {
      assert us[0..] == us;
      assert Flat(us[0]);
      G.ChildWritten(p, us, 0);
      TailAscends(us, C.RankOf);
      assert AllFlat(us[1..]);
      PlainWalk(us[1..], FlatPage(p, us[0]));
      var q := G.Written(p, G.WalkAll(us));
      if us[0].tag.Method? {
        MethodRowed(p, us, q);
      } else if us[0].tag.Signal? {
        if p.signals > 0 { LaterRowed(p, us, q); } else { FirstRowed(p, us, q); }
      } else {
        MuteRowed(p, us, q);
      }
    }
  }

  lemma BehindSignal(us: seq<Tree<Entity>>)
    requires us != [] && us[0].tag.Signal? && Ascending(us, C.RankOf)
    ensures forall i | 0 <= i < |Kinds(us[1..])| :: !Kinds(us[1..])[i].Method?
  {
    KindsAt(us[1..]);
    forall i | 0 <= i < |us[1..]| ensures !us[1..][i].tag.Method? {
      assert us[1..][i] == us[i + 1];
      assert C.RankOf(us[0]) <= C.RankOf(us[i + 1]);
    }
  }

  // ---------------------------------------------------------------- sorting plain children

  lemma {:induction false} SilentSorted(ts: seq<Tree<Entity>>)
    requires Silent(ts)
    ensures Silent(H.Sorted(ts))
    decreases ts
  {
    forall j | 0 <= j < |H.Sorted(ts)| ensures Mute(H.Sorted(ts)[j].tag) && Silent(H.Sorted(ts)[j].kids) {
      var i := H.SortedMember(ts, j);
      SilentSorted(ts[i].kids);
    }
  }

  lemma FlatArranged(ts: seq<Tree<Entity>>)
    requires AllFlat(ts)
    ensures AllFlat(C.ArrangedAll(ts))
  {
    forall i | 0 <= i < |ts| ensures Flat(C.ArrangedAll(ts)[i]) {
      C.ArrangedAt(ts, i);
      assert Flat(ts[i]);
      SilentSorted(ts[i].kids);
    }
  }

  lemma FlatSorted(ts: seq<Tree<Entity>>)
    requires AllFlat(ts)
    ensures AllFlat(H.Sorted(ts)) && Ascending(H.Sorted(ts), C.RankOf)
  {
    var us := C.ArrangedAll(ts);
    FlatArranged(ts);
    OrderedSorts(us, C.RankOf);
    forall j | 0 <= j < |H.Sorted(ts)| ensures Flat(H.Sorted(ts)[j]) {
      assert H.Sorted(ts)[j] in multiset(us);
      assert H.Sorted(ts)[j] in us;
    }
  }

  lemma SpreadSorted(ts: seq<Tree<Entity>>, st: seq<string>, seen: bool)
    ensures Spread(Kinds(H.Sorted(ts)), st, seen) == Spread(Kinds(ts), st, seen)
    ensures HasSignal(Kinds(H.Sorted(ts))) == HasSignal(Kinds(ts))
  {
    var us := C.ArrangedAll(ts);
    OrderedSorts(us, C.RankOf);
    ArrangedKinds(ts);
    SameBoth(H.Sorted(ts), us, st, if seen then st else st + [SIGNALS]);
    EqualSignals(H.Sorted(ts), us);
  }

  /** Plain children around one of another kind: all methods and signals are on the left, if that is a property. */
  lemma FlatAround(ls: seq<Tree<Entity>>, t: Tree<Entity>, rs: seq<Tree<Entity>>)
    returns (left: seq<Tree<Entity>>, right: seq<Tree<Entity>>)
    requires AllFlat(ls) && Silent(rs) && t.tag.Property?
    ensures H.Sorted(ls + [t] + rs) == left + [C.Arranged(t)] + right
    ensures AllFlat(left) && Ascending(left, C.RankOf) && Silent(right)
    ensures forall st, seen :: Spread(Kinds(left), st, seen) == Spread(Kinds(ls), st, seen)
    ensures HasSignal(Kinds(left)) == HasSignal(Kinds(ls))
  {
    left, right := H.FindOdd(ls, t, rs);
    OthersSame(C.ArrangedAll(ls), C.Arranged(t), C.ArrangedAll(rs), left, right);
    LeftAscends(ls + [t] + rs, left, C.Arranged(t), right);
    SidesFlat(ls, rs, left, right);
    AllSideSpread(ls, rs, left, right);
  }

  lemma SidesFlat(ls: seq<Tree<Entity>>, rs: seq<Tree<Entity>>, left: seq<Tree<Entity>>, right: seq<Tree<Entity>>)
    requires multiset(left + right) == multiset(C.ArrangedAll(ls) + C.ArrangedAll(rs)) && AllFlat(ls) && Silent(rs)
    requires forall i | 0 <= i < |right| :: C.RankOf(right[i]) >= 4
    ensures AllFlat(left) && Silent(right)
  {
    SilentFlat(rs);
    FlatArranged(ls);
    FlatArranged(rs);
    AllFlatIn(left + right, C.ArrangedAll(ls) + C.ArrangedAll(rs));
    assert forall i | 0 <= i < |left| :: (left + right)[i] == left[i];
    RightSilent(left, right);
  }

  lemma AllSideSpread(ls: seq<Tree<Entity>>, rs: seq<Tree<Entity>>, left: seq<Tree<Entity>>, right: seq<Tree<Entity>>)
    requires multiset(left + right) == multiset(C.ArrangedAll(ls) + C.ArrangedAll(rs)) && Silent(right) && Silent(rs)
    ensures forall st, seen :: Spread(Kinds(left), st, seen) == Spread(Kinds(ls), st, seen)
    ensures HasSignal(Kinds(left)) == HasSignal(Kinds(ls))
  {
    forall st, seen ensures Spread(Kinds(left), st, seen) == Spread(Kinds(ls), st, seen) {
      SideSpread(ls, rs, left, right, st, seen);
    }
    SideSpread(ls, rs, left, right, [], false);
  }

  lemma SilentFlat(ts: seq<Tree<Entity>>)
    requires Silent(ts)
    ensures AllFlat(ts) && forall i | 0 <= i < |Kinds(ts)| :: Mute(Kinds(ts)[i])
  {
    KindsAt(ts);
  }

  lemma OthersSame(ls: seq<Tree<Entity>>, p: Tree<Entity>, rs: seq<Tree<Entity>>, left: seq<Tree<Entity>>,
                   right: seq<Tree<Entity>>)
    requires multiset(left + [p] + right) == multiset(ls + [p] + rs)
    ensures multiset(left + right) == multiset(ls + rs)
  {
    assert multiset(left + [p] + right) == multiset(left) + multiset{p} + multiset(right);
    assert multiset(ls + [p] + rs) == multiset(ls) + multiset{p} + multiset(rs);
    forall x ensures multiset(left + right)[x] == multiset(ls + rs)[x] {
      assert (multiset(left) + multiset{p} + multiset(right))[x] == (multiset(ls) + multiset{p} + multiset(rs))[x];
    }
  }

  lemma AllFlatIn(ts: seq<Tree<Entity>>, us: seq<Tree<Entity>>)
    requires multiset(ts) == multiset(us) && forall x | x in us :: Flat(x)
    ensures AllFlat(ts)
  {
    forall i | 0 <= i < |ts| ensures Flat(ts[i]) {
      assert ts[i] in multiset(us);
    }
  }

  lemma LeftAscends(ts: seq<Tree<Entity>>, left: seq<Tree<Entity>>, p: Tree<Entity>, right: seq<Tree<Entity>>)
    requires H.Sorted(ts) == left + [p] + right
    ensures Ascending(left, C.RankOf)
  {
    OrderedSorts(C.ArrangedAll(ts), C.RankOf);
    var us := H.Sorted(ts);
    forall i, j | 0 <= i < j < |left| ensures C.RankOf(left[i]) <= C.RankOf(left[j]) {
      assert left[i] == us[i] && left[j] == us[j];
    }
  }

  lemma RightSilent(left: seq<Tree<Entity>>, right: seq<Tree<Entity>>)
    requires AllFlat(left + right) && forall i | 0 <= i < |right| :: C.RankOf(right[i]) >= 4
    ensures Silent(right)
  {
    forall i | 0 <= i < |right| ensures Mute(right[i].tag) && Silent(right[i].kids) {
      assert right[i] == (left + right)[|left| + i];
      assert Flat((left + right)[|left| + i]);
      assert C.RankOf(right[i]) >= 4;
    }
  }

  lemma SideSpread(ls: seq<Tree<Entity>>, rs: seq<Tree<Entity>>, left: seq<Tree<Entity>>, right: seq<Tree<Entity>>,
                   st: seq<string>, seen: bool)
    requires multiset(left + right) == multiset(C.ArrangedAll(ls) + C.ArrangedAll(rs)) && Silent(right) && Silent(rs)
    ensures Spread(Kinds(left), st, seen) == Spread(Kinds(ls), st, seen)
    ensures HasSignal(Kinds(left)) == HasSignal(Kinds(ls))
  {
    var xs, ys := C.ArrangedAll(ls), C.ArrangedAll(rs);
    var su := if seen then st else st + [SIGNALS];
    ArrangedKinds(ls);
    ArrangedKinds(rs);
    SilentFlat(rs);
    SilentFlat(right);
    MuteAfter(left, right, st, su);
    MuteAfter(xs, ys, st, su);
    SameBoth(left + right, xs + ys, st, su);
    EqualSignals(left + right, xs + ys);
  }

  lemma EqualSignals(ts: seq<Tree<Entity>>, us: seq<Tree<Entity>>)
    requires multiset(ts) == multiset(us)
    ensures HasSignal(Kinds(ts)) == HasSignal(Kinds(us))
  {
    if HasSignal(Kinds(ts)) { SameSignals(ts, us); }
    if HasSignal(Kinds(us)) { SameSignals(us, ts); }
  }

  lemma SignalLeft(es: seq<Entity>, fs: seq<Entity>)
    ensures HasSignal(es + fs) <==> HasSignal(es) || HasSignal(fs)
  {
    assert forall e :: e in es + fs <==> e in es || e in fs;
  }

  lemma MuteAfter(left: seq<Tree<Entity>>, right: seq<Tree<Entity>>, st: seq<string>, su: seq<string>)
    requires forall i | 0 <= i < |Kinds(right)| :: Mute(Kinds(right)[i])
    ensures Both(Kinds(left + right), st, su) == Both(Kinds(left), st, su)
    ensures HasSignal(Kinds(left + right)) == HasSignal(Kinds(left))
  {
    KindsConcat(left, right);
    BothConcat(Kinds(left), Kinds(right), st, su);
    NoneBusy(Kinds(right), st, su);
    SignalLeft(Kinds(left), Kinds(right));
  }

  // ---------------------------------------------------------------- the members of an interface

  /**
   Where structs are opened for the members ms, in any order: `es` has come since the last property, `st` is open
   where it belongs; `seen` and `props` say whether there has been a signal before that, and a property.
   A property closes the struct around the signals if that is open, else the struct it stands in; what follows stands
   in its own struct.
   */
  function Places(es: seq<Entity>, ms: seq<Doc<Entity>>, st: seq<string>, seen: bool, props: bool): multiset<Place>
    decreases |ms|
  {
    if ms == [] then Spread(es, st, seen)
    else if ms[0].tag.Property? then
      var su := if seen then Pop(st) else st;
      var sv := if props then su else su + [PROPERTIES];
      Spread(es, st, seen)
      + (if props then multiset{} else multiset{Place(PROPERTIES, su)}) + multiset{Place(Struct(ms[0].tag), sv)}
      + Places([], ms[1..], sv + [Struct(ms[0].tag)], seen || HasSignal(es), true)
    else Places(es + [ms[0].tag], ms[1..], st, seen, props)
  }

  lemma {:induction false} MuteBefore(es: seq<Entity>, fs: seq<Entity>, ms: seq<Doc<Entity>>, st: seq<string>,
                                      seen: bool, props: bool)
    requires forall i | 0 <= i < |es| :: Mute(es[i])
    ensures Places(es + fs, ms, st, seen, props) == Places(fs, ms, st, seen, props)
    decreases |ms|
  {
    var su := if seen then st else st + [SIGNALS];
    BothConcat(es, fs, st, su);
    NoneBusy(es, st, su);
    SignalLeft(es, fs);
    if ms != [] && !ms[0].tag.Property? {
      Group(es, fs, [ms[0].tag]);
      MuteBefore(es, fs + [ms[0].tag], ms[1..], st, seen, props);
    }
  }

  /** Methods, signals and properties, which hold nothing with a struct of its own, and elements without structs. */
  predicate Tidy(ms: seq<Doc<Entity>>) {
    forall i | 0 <= i < |ms| :: !ms[i].tag.Interface? && Silent(StripAll(ms[i].kids))
  }

  lemma TidyTail(ms: seq<Doc<Entity>>)
    requires Tidy(ms) && ms != []
    ensures Tidy(ms[1..])
  {
    assert forall i | 0 <= i < |ms[1..]| :: ms[1..][i] == ms[i + 1];
  }

  lemma WrittenRow(p: G.Page, left: seq<Tree<Entity>>, t: Tree<Entity>, right: seq<Tree<Entity>>)
    requires Silent(right)
    ensures G.Written(p, G.WalkAll(left + [t] + right)) ==
            G.Left(G.Written(G.Visited(G.Written(p, G.WalkAll(left)), t.tag), G.WalkAll(t.kids)), t.tag)
  {
    var a, m, b := G.WalkAll(left), G.Walk(t), G.WalkAll(right);
    var l := [G.Leave(t.tag)];
    H.MiddleWalk(left, t, right);
    G.WrittenConcat(p, a + (m + l), b);
    G.WrittenConcat(p, a, m + l);
    G.WrittenConcat(G.Written(p, a), m, l);
    assert l[1..] == [];
    TreeWritten(G.Written(p, a), t);
    SilentWritten(right, G.Written(p, a + (m + l)));
  }

  /** A page after plain children of the kinds es and on entering a property behind them. */
  ghost predicate Past(p: G.Page, es: seq<Entity>, e: Entity, q: G.Page) {
    var st, seen := Top(p), p.signals > 0;
    var su := if seen then Pop(st) else st;
    var sv := if p.properties > 0 then su else su + [PROPERTIES];
    && Seen(q) == Seen(p) + Spread(es, st, seen)
                  + (if p.properties > 0 then multiset{} else multiset{Place(PROPERTIES, su)})
                  + multiset{Place(Struct(e), sv)}
    && Top(q) == sv + [Struct(e)] && (q.signals > 0 <==> seen || HasSignal(es)) && q.properties > 0
  }

  /** A row of plain children with a property among them. */
  lemma PropertyRow(p: G.Page, pre: seq<Tree<Entity>>, t: Tree<Entity>, rs: seq<Tree<Entity>>)
    returns (q: G.Page)
    requires AllFlat(pre) && Silent(rs) && t.tag.Property?
    ensures Past(p, Kinds(pre), t.tag, q)
    ensures Seen(G.Written(p, G.WalkAll(H.Sorted(pre + [t] + rs)))) ==
            Seen(G.Written(q, G.WalkAll(C.Arranged(t).kids)))
  {
    var left, right := FlatAround(pre, t, rs);
    var r := G.Written(p, G.WalkAll(left));
    PlainWalk(left, p);
    PropertyPlaced(r, t.tag);
    q := G.Visited(r, t.tag);
    WrittenRow(p, left, C.Arranged(t), right);
    OneLine(G.Written(q, G.WalkAll(C.Arranged(t).kids)).lines, G.Closing);
  }

  lemma PropertyLevel(p: G.Page, pre: seq<Tree<Entity>>, m: Doc<Entity>, r: seq<Doc<Entity>>, behind: seq<Doc<Entity>>)
    returns (q: G.Page)
    requires AllFlat(pre) && m.tag.Property? && Silent(StripAll(behind))
    ensures Past(p, Kinds(pre), m.tag, q)
    ensures Seen(G.Written(p, G.WalkAll(H.Level(pre, [m] + r, behind)))) ==
            Seen(G.Written(q, G.WalkAll(H.Level(StripAll(m.kids), r, behind))))
  {
    var t := Tree.Node(m.tag, StripAll(m.kids) + H.Nest(r, behind));
    assert ([m] + r)[1..] == r;
    q := PropertyRow(p, pre, t, H.Tail(r, behind));
    Group(pre, [t], H.Tail(r, behind));
    assert H.Level(pre, [m] + r, behind) == H.Sorted(pre + [t] + H.Tail(r, behind));
  }

  lemma OtherLevel(pre: seq<Tree<Entity>>, m: Doc<Entity>, r: seq<Doc<Entity>>, behind: seq<Doc<Entity>>)
    requires !m.tag.Property?
    ensures H.Level(pre, [m] + r, behind) == H.Level(pre + [Strip(m)], r, behind)
    ensures Kinds(pre + [Strip(m)]) == Kinds(pre) + [m.tag]
  {
    assert ([m] + r)[1..] == r;
    Group(pre, [Strip(m)], H.Nest(r, behind));
    KindsConcat(pre, [Strip(m)]);
    assert [Strip(m)][1..] == [];
  }

  /** What a page holds once the rest of a level has been written. */
  ghost predicate Held(p: G.Page, es: seq<Entity>, ms: seq<Doc<Entity>>, q: G.Page) {
    Seen(q) == Seen(p) + Places(es, ms, Top(p), p.signals > 0, p.properties > 0)
  }

  lemma HeldPast(p: G.Page, es: seq<Entity>, m: Doc<Entity>, r: seq<Doc<Entity>>, q: G.Page, z: G.Page)
    requires m.tag.Property? && Past(p, es, m.tag, q) && Held(q, [], r, z)
    ensures Held(p, es, [m] + r, z)
  {
    assert ([m] + r)[1..] == r;
  }

  lemma HeldOther(p: G.Page, es: seq<Entity>, m: Doc<Entity>, r: seq<Doc<Entity>>, z: G.Page)
    requires !m.tag.Property? && Held(p, es + [m.tag], r, z)
    ensures Held(p, es, [m] + r, z)
  {
    assert ([m] + r)[1..] == r;
  }

  lemma HeldMute(p: G.Page, es: seq<Entity>, ms: seq<Doc<Entity>>, z: G.Page)
    requires Held(p, es, ms, z) && forall i | 0 <= i < |es| :: Mute(es[i])
    ensures Held(p, [], ms, z)
  {
    MuteBefore(es, [], ms, Top(p), p.signals > 0, p.properties > 0);
    assert es + [] == es;
  }

  /** The walk over a level, with `pre` in front of the members ms. */
  lemma {:induction false} LevelPlaced(p: G.Page, pre: seq<Tree<Entity>>, ms: seq<Doc<Entity>>,
                                       behind: seq<Doc<Entity>>)
    requires AllFlat(pre) && Tidy(ms) && Silent(StripAll(behind))
    ensures Held(p, Kinds(pre), ms, G.Written(p, G.WalkAll(H.Level(pre, ms, behind))))
    decreases |ms|
  {
    var z := G.Written(p, G.WalkAll(H.Level(pre, ms, behind)));
    if ms == [] {
      assert pre + [] == pre;
      FlatSorted(pre);
      PlainWalk(H.Sorted(pre), p);
      SpreadSorted(pre, Top(p), p.signals > 0);
    } else {
      var m, r := ms[0], ms[1..];
      assert ms == [m] + r;
      TidyTail(ms);
      if m.tag.Property? {
        var q := PropertyLevel(p, pre, m, r, behind);
        var k := StripAll(m.kids);
        SilentFlat(k);
        LevelPlaced(q, k, r, behind);
        HeldMute(q, Kinds(k), r, G.Written(q, G.WalkAll(H.Level(k, r, behind))));
        HeldPast(p, Kinds(pre), m, r, q, z);
      } else {
        OtherLevel(pre, m, r, behind);
        FlatOne(pre, Strip(m));
        LevelPlaced(p, pre + [Strip(m)], r, behind);
        HeldOther(p, Kinds(pre), m, r, z);
      }
    }
  }

  lemma FlatOne(ts: seq<Tree<Entity>>, t: Tree<Entity>)
    requires AllFlat(ts) && Flat(t)
    ensures AllFlat(ts + [t])
  {
  }

  // ---------------------------------------------------------------- the header of a document

  /** A document with one interface, and nothing beside it that has a struct. */
  predicate Neat(s: H.Sole) {
    s.Ok() && Tidy(s.members) && Silent(StripAll(s.before)) && Silent(StripAll(s.behind))
  }

  /** Each inside those before it. */
  function Chain(hs: seq<string>): multiset<Place> {
    if hs == [] then multiset{}
    else Chain(hs[..|hs| - 1]) + multiset{Place(hs[|hs| - 1], hs[..|hs| - 1])}
  }

  lemma ChainLine(ls: seq<G.Line>, h: string, st: seq<string>)
    requires Stack(ls, []) == st && multiset(Opened(ls, [])) == Chain(st)
    ensures var r := ls + [G.Opening(h)];
            Stack(r, []) == st + [h] && multiset(Opened(r, [])) == Chain(st + [h])
  {
    OneLine(ls, G.Opening(h));
    assert (st + [h])[..|st|] == st;
  }

  lemma {:induction false} NamespacesPlaced(ns: seq<string>, ls: seq<G.Line>, st: seq<string>)
    requires Stack(ls, []) == st && multiset(Opened(ls, [])) == Chain(st)
    ensures var r := ls + G.Namespaces(ns);
            && Stack(r, []) == st + G.NamespaceHeads(ns)
            && multiset(Opened(r, [])) == Chain(st + G.NamespaceHeads(ns))
    decreases |ns|
  {
    if ns == [] {
      assert ls + [] == ls && st + [] == st;
    } else {
      var h := "namespace " + ns[0];
      ChainLine(ls, h, st);
      NamespacesPlaced(ns[1..], ls + [G.Opening(h)], st + [h]);
      Group(ls, [G.Opening(h)], G.Namespaces(ns[1..]));
      Group(st, [h], G.NamespaceHeads(ns[1..]));
    }
  }

  lemma InterfacePlaced(name: string)
    ensures var q, hs := G.Visited(G.BLANK, Interface(name)), G.InterfaceHeads(name);
            Seen(q) == Chain(hs) && Top(q) == hs && q.signals == 0 && q.properties == 0
  {
    var ns := G.Spaces(name);
    var h := G.InterfaceHeads(name)[|G.NamespaceHeads(ns)|];
    NamespacesPlaced(ns, [], []);
    assert [] + G.NamespaceHeads(ns) == G.NamespaceHeads(ns);
    OneLine([] + G.Namespaces(ns), G.Opening(h));
    assert G.InterfaceHeads(name) == G.NamespaceHeads(ns) + [h];
    assert G.InterfaceHeads(name)[..|G.NamespaceHeads(ns)|] == G.NamespaceHeads(ns);
  }

  lemma {:induction false} ClosingsOpenNothing(ls: seq<G.Line>, n: nat)
    ensures multiset(Opened(ls + G.Closings(n), [])) == multiset(Opened(ls, []))
    decreases n
  {
    if n == 0 {
      assert ls + [] == ls;
    } else {
      OneLine(ls, G.Closing);
      ClosingsOpenNothing(ls + [G.Closing], n - 1);
      Group(ls, [G.Closing], G.Closings(n - 1));
    }
  }

  lemma InterfaceLeft(p: G.Page, name: string)
    ensures Seen(G.Left(p, Interface(name))) == Seen(p)
  {
    var a := if p.properties > 0 then [G.Closing] else [];
    MaybeLine(p.lines, p.properties > 0, G.Closing);
    OneLine(p.lines + a, G.Closing);
    ClosingsOpenNothing(p.lines + a + [G.Closing], p.namespaces);
  }

  /** Elements without structs around the interface. */
  lemma SilentAround(ls: seq<Tree<Entity>>, t: Tree<Entity>, rs: seq<Tree<Entity>>)
    returns (left: seq<Tree<Entity>>, right: seq<Tree<Entity>>)
    requires Silent(ls) && Silent(rs)
    ensures H.Sorted(ls + [t] + rs) == left + [C.Arranged(t)] + right && Silent(left) && Silent(right)
  {
    left, right := H.FindOdd(ls, t, rs);
    OthersSame(C.ArrangedAll(ls), C.Arranged(t), C.ArrangedAll(rs), left, right);
    SilentArranged(ls);
    SilentArranged(rs);
    SilentParts(C.ArrangedAll(ls), C.ArrangedAll(rs));
    SilentIn(left + right, C.ArrangedAll(ls) + C.ArrangedAll(rs));
    SilentParts(left, right);
  }

  lemma SilentParts(ts: seq<Tree<Entity>>, us: seq<Tree<Entity>>)
    ensures Silent(ts + us) <==> Silent(ts) && Silent(us)
  {
    if Silent(ts + us) {
      assert forall i | 0 <= i < |ts| :: (ts + us)[i] == ts[i];
      assert forall i | 0 <= i < |us| :: (ts + us)[|ts| + i] == us[i];
    }
  }

  lemma SilentIn(ts: seq<Tree<Entity>>, us: seq<Tree<Entity>>)
    requires multiset(ts) == multiset(us) && Silent(us)
    ensures Silent(ts)
  {
    forall i | 0 <= i < |ts| ensures Mute(ts[i].tag) && Silent(ts[i].kids) {
      assert ts[i] in multiset(us);
    }
  }

  lemma SilentArranged(ts: seq<Tree<Entity>>)
    requires Silent(ts)
    ensures Silent(C.ArrangedAll(ts))
  {
    forall i | 0 <= i < |ts| ensures Mute(C.ArrangedAll(ts)[i].tag) && Silent(C.ArrangedAll(ts)[i].kids) {
      C.ArrangedAt(ts, i);
      SilentSorted(ts[i].kids);
    }
  }

  /** All structs and namespaces that the header of such a document opens, each with what it stands in. */
  lemma HeaderPlaces(s: H.Sole)
    requires Neat(s)
    ensures var hs := G.InterfaceHeads(s.interface.name);
            multiset(Opened(H.Header([s.Document()]), [])) ==
            Chain(hs) + Places([], s.members, hs, false, false)
  {
    var t := C.Arranged(s.Built());
    var p := C.Arranged(s.Inner());
    var q := G.Visited(G.BLANK, s.interface);
    var rs := H.Tail(s.members, s.behind);
    H.NestBuilt(s);
    var left, right := SilentAround(StripAll(s.before), s.Inner(), rs);
    assert t.kids == left + [p] + right;
    TreeWritten(G.BLANK, t);
    SilentWritten(left, G.BLANK);
    WrittenRow(G.BLANK, left, p, right);
    InterfacePlaced(s.interface.name);
    assert [] + H.Nest(s.members, s.behind) == H.Nest(s.members, s.behind);
    LevelPlaced(q, [], s.members, s.behind);
    InterfaceLeft(G.Written(q, G.WalkAll(p.kids)), s.interface.name);
  }

  // ---------------------------------------------------------------- where each member stands

  /** The structs of the properties among the first n members. */
  function PropertiesBefore(ms: seq<Doc<Entity>>, n: nat): seq<string>
    requires n <= |ms|
    decreases |ms|
  {
    if n == 0 then []
    else (if ms[0].tag.Property? then [Struct(ms[0].tag)] else []) + PropertiesBefore(ms[1..], n - 1)
  }

  /** Before member n, some property has come after a signal. */
  predicate SignalsOver(ms: seq<Doc<Entity>>, n: nat)
    requires n <= |ms|
  {
    exists j, k :: 0 <= j < k < n && ms[j].tag.Signal? && ms[k].tag.Property?
  }

  /** Some property comes before member n. */
  predicate PropertyBefore(ms: seq<Doc<Entity>>, n: nat)
    requires n <= |ms|
  {
    exists k :: 0 <= k < n && ms[k].tag.Property?
  }

  /** The structs around the properties, if it is not open yet, and those of the properties before. */
  function Inner(ms: seq<Doc<Entity>>, n: nat, props: bool): seq<string>
    requires n < |ms|
  {
    (if !props && (ms[n].tag.Property? || PropertyBefore(ms, n)) then [PROPERTIES] else []) + PropertiesBefore(ms, n)
  }

  /** Signals, as long as no property has come after the first of them, stand in a struct of their own. */
  function Spot(ms: seq<Doc<Entity>>, n: nat, st: seq<string>, over: bool, props: bool): Place
    requires n < |ms|
  {
    Place(Struct(ms[n].tag), st + Inner(ms, n, props) + if ms[n].tag.Signal? && !over then [SIGNALS] else [])
  }

  /** `over`, for members that come after others: of the kinds es, and in front of them, if `seen`, a signal. */
  predicate Over(es: seq<Entity>, ms: seq<Doc<Entity>>, n: nat, seen: bool)
    requires n <= |ms|
  {
    seen || SignalsOver(ms, n) || (HasSignal(es) && PropertyBefore(ms, n))
  }

  /** What a property leaves to those behind it. */
  function Behind(m: Doc<Entity>, st: seq<string>, seen: bool, props: bool): seq<string> {
    var su := if seen then Pop(st) else st;
    (if props then su else su + [PROPERTIES]) + [Struct(m.tag)]
  }

  lemma PlacesUnfold(es: seq<Entity>, ms: seq<Doc<Entity>>, st: seq<string>, seen: bool, props: bool)
    ensures ms == [] || ms[0].tag.Property? ==> Spread(es, st, seen) <= Places(es, ms, st, seen, props)
    ensures ms != [] && !ms[0].tag.Property? ==>
              Places(es, ms, st, seen, props) == Places(es + [ms[0].tag], ms[1..], st, seen, props)
    ensures ms != [] && ms[0].tag.Property? ==>
              Places([], ms[1..], Behind(ms[0], st, seen, props), seen || HasSignal(es), true)
              <= Places(es, ms, st, seen, props)
    ensures ms != [] && ms[0].tag.Property? && !seen ==>
              Place(Struct(ms[0].tag), if props then st else st + [PROPERTIES]) in Places(es, ms, st, seen, props)
  {
    if ms != [] && ms[0].tag.Property? {
      var su := if seen then Pop(st) else st;
      var sv := if props then su else su + [PROPERTIES];
      FourParts(Spread(es, st, seen), if props then multiset{} else multiset{Place(PROPERTIES, su)},
                Place(Struct(ms[0].tag), sv),
                Places([], ms[1..], Behind(ms[0], st, seen, props), seen || HasSignal(es), true));
    }
  }

  lemma FourParts(a: multiset<Place>, b: multiset<Place>, x: Place, d: multiset<Place>)
    ensures a <= a + b + multiset{x} + d && d <= a + b + multiset{x} + d && x in a + b + multiset{x} + d
  {
  }

  lemma {:induction false} StandsAmong(es: seq<Entity>, ms: seq<Doc<Entity>>, st: seq<string>, seen: bool, props: bool,
                                       x: Place)
    requires x in Both(es, st, if seen then st else st + [SIGNALS])
    ensures x in Places(es, ms, st, seen, props)
    decreases |ms|
  {
    PlacesUnfold(es, ms, st, seen, props);
    if ms == [] || ms[0].tag.Property? {
      assert x in Spread(es, st, seen);
    } else {
      BothConcat(es, [ms[0].tag], st, if seen then st else st + [SIGNALS]);
      StandsAmong(es + [ms[0].tag], ms[1..], st, seen, props, x);
    }
  }

  lemma {:induction false} InBoth(es: seq<Entity>, st: seq<string>, su: seq<string>, e: Entity)
    requires e in es
    ensures e.Method? ==> Place(Struct(e), st) in Both(es, st, su)
    ensures e.Signal? ==> Place(Struct(e), su) in Both(es, st, su)
  {
    if es[0] != e {
      InBoth(es[1..], st, su, e);
    }
  }

  lemma TailOver(es: seq<Entity>, ms: seq<Doc<Entity>>, n: nat, seen: bool)
    requires 0 < n <= |ms|
    ensures PropertyBefore(ms, n) <==> ms[0].tag.Property? || PropertyBefore(ms[1..], n - 1)
    ensures ms[0].tag.Property? ==> (Over(es, ms, n, seen) <==> Over([], ms[1..], n - 1, seen || HasSignal(es)))
    ensures !ms[0].tag.Property? ==> (Over(es, ms, n, seen) <==> Over(es + [ms[0].tag], ms[1..], n - 1, seen))
  {
    var r := ms[1..];
    assert forall k | 0 < k < n :: ms[k] == r[k - 1];
    assert forall k | 0 <= k < n - 1 :: r[k] == ms[k + 1];
    SignalLeft(es, [ms[0].tag]);
    assert HasSignal([ms[0].tag]) <==> ms[0].tag.Signal? by {
      assert forall e :: e in [ms[0].tag] <==> e == ms[0].tag;
    }
    assert SignalsOver(ms, n) <==> SignalsOver(r, n - 1) || (ms[0].tag.Signal? && PropertyBefore(r, n - 1)) by {
      if j, k :| 0 <= j < k < n && ms[j].tag.Signal? && ms[k].tag.Property? {
        assert r[k - 1].tag.Property?;
        if j > 0 { assert r[j - 1].tag.Signal?; }
      }
      if j, k :| 0 <= j < k < n - 1 && r[j].tag.Signal? && r[k].tag.Property? {
        assert ms[j + 1].tag.Signal? && ms[k + 1].tag.Property?;
      }
      if ms[0].tag.Signal? && PropertyBefore(r, n - 1) {
        var k :| 0 <= k < n - 1 && r[k].tag.Property?;
        assert ms[0].tag.Signal? && ms[k + 1].tag.Property?;
      }
    }
  }

  /** Not more than one property after a signal is allowed: this one, or one before. */
  predicate OnceLate(es: seq<Entity>, ms: seq<Doc<Entity>>, seen: bool) {
    H.LateMembers(ms, seen || HasSignal(es)) <= if seen then 0 else 1
  }

  lemma SpotFirst(ms: seq<Doc<Entity>>, st: seq<string>, over: bool, props: bool)
    requires ms != []
    ensures var e := ms[0].tag;
            Spot(ms, 0, st, over, props) ==
            Place(Struct(e), if e.Property? then (if props then st else st + [PROPERTIES])
                             else if e.Signal? && !over then st + [SIGNALS] else st)
  {
    assert PropertiesBefore(ms, 0) == [];
    assert st + [] == st && [PROPERTIES] + [] == [PROPERTIES];
    assert st + [PROPERTIES] + [] == st + [PROPERTIES];
  }

  lemma StandsFirst(es: seq<Entity>, ms: seq<Doc<Entity>>, st: seq<string>, seen: bool, props: bool)
    requires ms != [] && OnceLate(es, ms, seen)
    requires ms[0].tag.Method? || ms[0].tag.Signal? || ms[0].tag.Property?
    ensures Spot(ms, 0, st, Over(es, ms, 0, seen), props) in Places(es, ms, st, seen, props)
  {
    var e, su := ms[0].tag, if seen then st else st + [SIGNALS];
    PlacesUnfold(es, ms, st, seen, props);
    SpotFirst(ms, st, seen, props);
    assert Over(es, ms, 0, seen) <==> seen;
    if e.Property? {
      OnceMore(es, ms, seen);
    } else {
      assert e in es + [e];
      InBoth(es + [e], st, su, e);
      StandsAmong(es + [e], ms[1..], st, seen, props, Place(Struct(e), if e.Method? then st else su));
    }
  }

  lemma SpotBehind(ms: seq<Doc<Entity>>, n: nat, st: seq<string>, over: bool, props: bool)
    requires 0 < n < |ms| && ms[0].tag.Property?
    ensures Spot(ms, n, st, over, props) == Spot(ms[1..], n - 1, Behind(ms[0], st, false, props), over, true)
  {
    var r := ms[1..];
    var h := if props then [] else [PROPERTIES];
    TailOver([], ms, n, false);
    assert Inner(ms, n, props) == h + ([Struct(ms[0].tag)] + PropertiesBefore(r, n - 1));
    assert Inner(r, n - 1, true) == PropertiesBefore(r, n - 1) by {
      assert [] + PropertiesBefore(r, n - 1) == PropertiesBefore(r, n - 1);
    }
    assert Behind(ms[0], st, false, props) == st + h + [Struct(ms[0].tag)] by {
      assert st + [] == st;
    }
    Regrouped(st, h, [Struct(ms[0].tag)], PropertiesBefore(r, n - 1));
  }

  lemma Regrouped(a: seq<string>, b: seq<string>, c: seq<string>, d: seq<string>)
    ensures a + b + c + d == a + (b + (c + d))
  {
  }

  lemma SpotBeside(ms: seq<Doc<Entity>>, n: nat, st: seq<string>, over: bool, props: bool)
    requires 0 < n < |ms| && !ms[0].tag.Property?
    ensures Spot(ms, n, st, over, props) == Spot(ms[1..], n - 1, st, over, props)
  {
    TailOver([], ms, n, false);
    assert [] + PropertiesBefore(ms[1..], n - 1) == PropertiesBefore(ms[1..], n - 1);
  }

  lemma StandsBehind(es: seq<Entity>, ms: seq<Doc<Entity>>, st: seq<string>, props: bool, n: nat)
    requires 0 < n < |ms| && ms[0].tag.Property?
    requires var r, su, late := ms[1..], Behind(ms[0], st, false, props), HasSignal(es);
             Spot(r, n - 1, su, Over([], r, n - 1, late), true) in Places([], r, su, late, true)
    ensures Spot(ms, n, st, Over(es, ms, n, false), props) in Places(es, ms, st, false, props)
  {
    TailOver(es, ms, n, false);
    PlacesUnfold(es, ms, st, false, props);
    SpotBehind(ms, n, st, Over(es, ms, n, false), props);
  }

  lemma StandsBeside(es: seq<Entity>, ms: seq<Doc<Entity>>, st: seq<string>, seen: bool, props: bool, n: nat)
    requires 0 < n < |ms| && !ms[0].tag.Property?
    requires var r, fs := ms[1..], es + [ms[0].tag];
             Spot(r, n - 1, st, Over(fs, r, n - 1, seen), props) in Places(fs, r, st, seen, props)
    ensures Spot(ms, n, st, Over(es, ms, n, seen), props) in Places(es, ms, st, seen, props)
  {
    TailOver(es, ms, n, seen);
    PlacesUnfold(es, ms, st, seen, props);
    SpotBeside(ms, n, st, Over(es, ms, n, seen), props);
  }

  lemma {:induction false} Stands(es: seq<Entity>, ms: seq<Doc<Entity>>, st: seq<string>, seen: bool, props: bool,
                                  n: nat)
    requires n < |ms| && OnceLate(es, ms, seen)
    requires ms[n].tag.Method? || ms[n].tag.Signal? || ms[n].tag.Property?
    ensures Spot(ms, n, st, Over(es, ms, n, seen), props) in Places(es, ms, st, seen, props)
    decreases |ms|
  {
    if n == 0 {
      StandsFirst(es, ms, st, seen, props);
    } else {
      if ms[0].tag.Property? {
        OnceMore(es, ms, seen);
        Stands([], ms[1..], Behind(ms[0], st, seen, props), seen || HasSignal(es), true, n - 1);
        StandsBehind(es, ms, st, props, n);
      } else {
        StillOnce(es, ms, seen);
        Stands(es + [ms[0].tag], ms[1..], st, seen, props, n - 1);
        StandsBeside(es, ms, st, seen, props, n);
      }
    }
  }

  lemma OnceMore(es: seq<Entity>, ms: seq<Doc<Entity>>, seen: bool)
    requires ms != [] && ms[0].tag.Property? && OnceLate(es, ms, seen)
    ensures !seen && OnceLate([], ms[1..], seen || HasSignal(es))
  {
  }

  lemma StillOnce(es: seq<Entity>, ms: seq<Doc<Entity>>, seen: bool)
    requires ms != [] && !ms[0].tag.Property? && OnceLate(es, ms, seen)
    ensures OnceLate(es + [ms[0].tag], ms[1..], seen)
  {
    SignalLeft(es, [ms[0].tag]);
    assert forall e :: e in [ms[0].tag] <==> e == ms[0].tag;
  }

  /**
   In a header with balanced braces, the struct of every method, signal and property stands in that of its interface,
   in the one around the properties and those of all properties before it, and signals in front of any property that
   follows one in the struct around the signals.
   */
  lemma BalancedNesting(s: H.Sole, n: nat)
    requires Neat(s) && n < |s.members| && G.Depth(H.Header([s.Document()])) == 0
    requires s.members[n].tag.Method? || s.members[n].tag.Signal? || s.members[n].tag.Property?
    ensures Spot(s.members, n, G.InterfaceHeads(s.interface.name), SignalsOver(s.members, n), false) in
            multiset(Opened(H.Header([s.Document()]), []))
  {
    var hs := G.InterfaceHeads(s.interface.name);
    H.HeaderBalanced(s);
    H.NoSignalNoneLate(s.members);
    HeaderPlaces(s);
    assert !HasSignal([]);
    Stands([], s.members, hs, false, false, n);
  }

  lemma {:induction false} AmongBefore(ms: seq<Doc<Entity>>, k: nat, n: nat)
    requires k < n <= |ms| && ms[k].tag.Property?
    ensures Struct(ms[k].tag) in PropertiesBefore(ms, n)
    decreases |ms|
  {
    if k > 0 {
      AmongBefore(ms[1..], k - 1, n - 1);
    }
  }

  /** So whatever comes after a property has its struct inside that of the property, other properties included. */
  lemma LaterInside(s: H.Sole, k: nat, n: nat)
    requires Neat(s) && k < n < |s.members| && G.Depth(H.Header([s.Document()])) == 0
    requires s.members[k].tag.Property?
    requires s.members[n].tag.Method? || s.members[n].tag.Signal? || s.members[n].tag.Property?
    ensures exists x :: x in multiset(Opened(H.Header([s.Document()]), [])) &&
                        x.head == Struct(s.members[n].tag) && Struct(s.members[k].tag) in x.inside
  {
    BalancedNesting(s, n);
    AmongBefore(s.members, k, n);
  }
}
