/**
 From document to header: the compiler (src/core/dbus/compiler.cpp:160-177) hands its tree to the generator
 (src/core/dbus/generator.cpp:642-895).  For a document with one interface the braces of the header can be read off
 the order of its members.
 */
module Headers {
  import opened CursorTree
  import opened Introspection
  import opened KindOrder
  import opened Sequences
  import C = Compiler
  import G = Generator

  // ---------------------------------------------------------------- documents with one interface

  /** Nothing that a header has a struct of its own for, except methods. */
  predicate Quiet(xs: seq<Doc<Entity>>)
    decreases xs
  {
    xs == [] ||
    (!xs[0].tag.Interface? && !xs[0].tag.Signal? && !xs[0].tag.Property? && !xs[0].sticky &&
     Quiet(xs[0].kids) && Quiet(xs[1..]))
  }

  /** The members of an interface: signals and properties in any order, other members among them. */
  predicate Members(ms: seq<Doc<Entity>>) {
    forall i | 0 <= i < |ms| :: !ms[i].tag.Interface? && (ms[i].sticky <==> ms[i].tag.Property?) && Quiet(ms[i].kids)
  }

  function SignalMembers(ms: seq<Doc<Entity>>): nat {
    if ms == [] then 0 else G.One(ms[0].tag.Signal?) + SignalMembers(ms[1..])
  }

  function PropertyMembers(ms: seq<Doc<Entity>>): nat {
    if ms == [] then 0 else G.One(ms[0].tag.Property?) + PropertyMembers(ms[1..])
  }

  /** Properties after the first signal in document order, if `seen` says whether there has been a signal. */
  function LateMembers(ms: seq<Doc<Entity>>, seen: bool): nat {
    if ms == [] then 0
    else G.One(seen && ms[0].tag.Property?) + LateMembers(ms[1..], seen || ms[0].tag.Signal?)
  }

  /** What follows the interface lands beside it, unless a property has left `current` further down. */
  function Tail(ms: seq<Doc<Entity>>, behind: seq<Doc<Entity>>): seq<Tree<Entity>> {
    if PropertyMembers(ms) == 0 then StripAll(behind) else []
  }

  /** What the compiler makes of the members: everything after a property ends up inside it, and what follows the
      interface ends up above the last property. */
  function Nest(ms: seq<Doc<Entity>>, behind: seq<Doc<Entity>>): seq<Tree<Entity>> {
    if ms == [] then []
    else if ms[0].tag.Property? then
      [Tree.Node(ms[0].tag, StripAll(ms[0].kids) + Nest(ms[1..], behind))] + Tail(ms[1..], behind)
    else [Strip(ms[0])] + Nest(ms[1..], behind)
  }

  /** A node with one interface, and quiet siblings before and behind it. */
  datatype Sole = Sole(root: Entity, before: seq<Doc<Entity>>, interface: Entity, members: seq<Doc<Entity>>,
                       behind: seq<Doc<Entity>>)
  {
    predicate Ok() {
      root.Node? && interface.Interface? && Members(members) && Quiet(before) && Quiet(behind)
    }

    function Kids(): seq<Doc<Entity>> {
      before + [Doc(interface, members, false)] + behind
    }

    function Document(): Doc<Entity> {
      Doc(root, Kids(), false)
    }

    /** The interface as the compiler builds it. */
    function Inner(): Tree<Entity> {
      Tree.Node(interface, Nest(members, behind))
    }

    function Siblings(): seq<Tree<Entity>> {
      StripAll(before) + [Inner()] + Tail(members, behind)
    }

    function Built(): Tree<Entity> {
      Tree.Node(root, Siblings())
    }
  }

  lemma {:induction false} QuietStickies(xs: seq<Doc<Entity>>)
    requires Quiet(xs)
    ensures StickiesAll(xs) == 0
    decreases xs
  {
    if xs != [] {
      QuietStickies(xs[0].kids);
      QuietStickies(xs[1..]);
    }
  }

  lemma QuietLands(xs: seq<Doc<Entity>>, d: nat)
    requires Quiet(xs)
    ensures Landing(xs, d) == FlatAll(StripAll(xs), d) && StickiesAll(xs) == 0
  {
    QuietStickies(xs);
    PropertyFree(xs);
    LandingFaithful(xs, d);
  }

  lemma TailMembers(ms: seq<Doc<Entity>>)
    requires Members(ms) && ms != []
    ensures Members(ms[1..])
  {
    assert forall i | 0 <= i < |ms[1..]| :: ms[1..][i] == ms[i + 1];
  }

  lemma {:induction false} MemberStickies(ms: seq<Doc<Entity>>)
    requires Members(ms)
    ensures StickiesAll(ms) == PropertyMembers(ms)
    decreases |ms|
  {
    if ms != [] {
      TailMembers(ms);
      QuietStickies(ms[0].kids);
      MemberStickies(ms[1..]);
    }
  }

  /** Where what follows the interface lands. */
  function Landed(ms: seq<Doc<Entity>>, behind: seq<Doc<Entity>>, d: nat): seq<(Entity, nat)> {
    if PropertyMembers(ms) == 0 then [] else Landing(behind, d + PropertyMembers(ms) - 1)
  }

  lemma TailLands(ms: seq<Doc<Entity>>, behind: seq<Doc<Entity>>, d: nat)
    requires Quiet(behind)
    ensures Landed(ms, behind, d + 1) + FlatAll(Tail(ms, behind), d) == Landing(behind, d + PropertyMembers(ms))
  {
    QuietLands(behind, d);
  }

  lemma {:induction false} NestLands(ms: seq<Doc<Entity>>, behind: seq<Doc<Entity>>, d: nat)
    requires Members(ms) && Quiet(behind)
    ensures FlatAll(Nest(ms, behind), d) == Landing(ms, d) + Landed(ms, behind, d)
    decreases |ms|
  {
    if ms != [] {
      var m, r := ms[0], ms[1..];
      TailMembers(ms);
      if m.tag.Property? {
        NestLands(r, behind, d + 1);
        NestedLands(m, r, behind, d);
        assert ms == [m] + r;
      } else {
        NestLands(r, behind, d);
        BesideLands(m, r, behind, d);
        assert ms == [m] + r;
      }
    }
  }

  lemma LandingCons(m: Doc<Entity>, r: seq<Doc<Entity>>, d: nat)
    ensures Landing([m] + r, d) == [(m.tag, d)] + Landing(m.kids, d + 1) + Landing(r, d + Stickies(m))
  {
    assert ([m] + r)[1..] == r;
  }

  lemma BesideLands(m: Doc<Entity>, r: seq<Doc<Entity>>, behind: seq<Doc<Entity>>, d: nat)
    requires !m.tag.Property? && !m.sticky && Quiet(m.kids)
    requires FlatAll(Nest(r, behind), d) == Landing(r, d) + Landed(r, behind, d)
    ensures FlatAll(Nest([m] + r, behind), d) == Landing([m] + r, d) + Landed([m] + r, behind, d)
  {
    QuietLands(m.kids, d + 1);
    FlatAllConcat([Strip(m)], Nest(r, behind), d);
    OneFlat(Strip(m), d);
    Group([(m.tag, d)] + Landing(m.kids, d + 1), Landing(r, d), Landed(r, behind, d));
    LandingCons(m, r, d);
    assert Landed([m] + r, behind, d) == Landed(r, behind, d) &&
           Nest([m] + r, behind) == [Strip(m)] + Nest(r, behind) by {
      assert ([m] + r)[1..] == r;
    }
  }

  lemma LandedCons(m: Doc<Entity>, r: seq<Doc<Entity>>, behind: seq<Doc<Entity>>, d: nat)
    requires m.tag.Property?
    ensures Landed([m] + r, behind, d) == Landing(behind, d + PropertyMembers(r))
  {
    assert ([m] + r)[1..] == r;
  }

  lemma NestedLands(m: Doc<Entity>, r: seq<Doc<Entity>>, behind: seq<Doc<Entity>>, d: nat)
    requires m.tag.Property? && m.sticky && Quiet(m.kids) && Quiet(behind)
    requires FlatAll(Nest(r, behind), d + 1) == Landing(r, d + 1) + Landed(r, behind, d + 1)
    ensures FlatAll(Nest([m] + r, behind), d) == Landing([m] + r, d) + Landed([m] + r, behind, d)
  {
    var t := Tree.Node(m.tag, StripAll(m.kids) + Nest(r, behind));
    var k, p, q, z := Landing(m.kids, d + 1), Landing(r, d + 1), Landed(r, behind, d + 1), FlatAll(Tail(r, behind), d);
    QuietLands(m.kids, d + 1);
    FlatAllConcat(StripAll(m.kids), Nest(r, behind), d + 1);
    FlatAllConcat([t], Tail(r, behind), d);
    OneFlat(t, d);
    TailLands(r, behind, d);
    Interleave([(m.tag, d)], k, p, q, z);
    LandingCons(m, r, d);
    LandedCons(m, r, behind, d);
    assert Nest([m] + r, behind) == [t] + Tail(r, behind) by {
      assert ([m] + r)[1..] == r;
    }
  }

  lemma OneFlat(t: Tree<Entity>, d: nat)
    ensures FlatAll([t], d) == Flat(t, d)
  {
    assert [t][1..] == [];
    assert Flat(t, d) + [] == Flat(t, d);
  }

  lemma {:induction false} QuietThen(xs: seq<Doc<Entity>>, ys: seq<Doc<Entity>>, d: nat)
    requires Quiet(xs)
    ensures Landing(xs + ys, d) == FlatAll(StripAll(xs), d) + Landing(ys, d)
    decreases |xs|
  {
    if xs == [] {
      assert xs + ys == ys;
    } else {
      assert (xs + ys)[1..] == xs[1..] + ys;
      QuietStickies(xs[0].kids);
      QuietLands(xs[0].kids, d + 1);
      QuietThen(xs[1..], ys, d);
      Group(Flat(Strip(xs[0]), d), FlatAll(StripAll(xs[1..]), d), Landing(ys, d));
    }
  }

  lemma SoleLands(s: Sole)
    requires s.Ok()
    ensures Landing(s.Kids(), 1) == FlatAll(s.Siblings(), 1)
  {
    var x := Doc(s.interface, s.members, false);
    var a, i := FlatAll(StripAll(s.before), 1), [(s.interface, 1 as nat)];
    var m, l := Landing(s.members, 2), Landed(s.members, s.behind, 2);
    var z := FlatAll(Tail(s.members, s.behind), 1);
    Group(s.before, [x], s.behind);
    QuietThen(s.before, [x] + s.behind, 1);
    assert ([x] + s.behind)[1..] == s.behind;
    MemberStickies(s.members);
    TailLands(s.members, s.behind, 1);
    assert Landing(s.Kids(), 1) == a + (i + m + (l + z));
    NestLands(s.members, s.behind, 2);
    FlatAllConcat(StripAll(s.before) + [s.Inner()], Tail(s.members, s.behind), 1);
    FlatAllConcat(StripAll(s.before), [s.Inner()], 1);
    OneFlat(s.Inner(), 1);
    assert FlatAll(s.Siblings(), 1) == a + (i + (m + l)) + z;
    Group(a, i + (m + l), z);
    Interleave(a, i, m, l, z);
  }

  /** The tree built for a document with one interface. */
  lemma NestBuilt(s: Sole)
    requires s.Ok()
    ensures Grown([s.Document()]) == s.Built()
  {
    var b := Builder(Tree.Node(s.root, []), 0);
    GrownSingle(s.Document());
    DocsLand(b, s.Kids());
    SoleLands(s);
    assert Flat(b.tree, 0) == [(s.root, 0)];
    FlatInjective(Grown([s.Document()]), s.Built(), 0);
  }

  // ---------------------------------------------------------------- walks of ordered children

  /** The signals, properties and interfaces of a walk. */
  function Counts(w: seq<G.Visit>): (nat, nat, nat) {
    (G.Signals(w), G.Properties(w), G.Interfaces(w))
  }

  function Plus(a: (nat, nat, nat), b: (nat, nat, nat)): (nat, nat, nat) {
    (a.0 + b.0, a.1 + b.1, a.2 + b.2)
  }

  function Own(v: G.Visit): (nat, nat, nat) {
    if v.Enter? then (G.One(v.e.Signal?), G.One(v.e.Property?), G.One(v.e.Interface?)) else (0, 0, 0)
  }

  lemma HeadCounts(v: G.Visit, w: seq<G.Visit>)
    ensures Counts([v] + w) == Plus(Own(v), Counts(w))
  {
    assert ([v] + w)[1..] == w;
  }

  lemma {:induction false} CountsConcat(u: seq<G.Visit>, w: seq<G.Visit>)
    ensures Counts(u + w) == Plus(Counts(u), Counts(w))
    decreases |u|
  {
    if u == [] {
      assert u + w == w;
    } else {
      CountsConcat(u[1..], w);
      HeadCounts(u[0], u[1..]);
      HeadCounts(u[0], u[1..] + w);
      assert u == [u[0]] + u[1..];
      Group([u[0]], u[1..], w);
    }
  }

  lemma {:induction false} LateConcat(u: seq<G.Visit>, w: seq<G.Visit>, seen: bool)
    ensures G.Late(u + w, seen) == G.Late(u, seen) + G.Late(w, seen || G.Signals(u) > 0)
    decreases |u|
  {
    if u == [] {
      assert u + w == w;
    } else {
      assert (u + w)[1..] == u[1..] + w;
      LateConcat(u[1..], w, seen || (u[0].Enter? && u[0].e.Signal?));
    }
  }

  lemma {:induction false} NoneLate(w: seq<G.Visit>, seen: bool)
    requires G.Properties(w) == 0
    ensures G.Late(w, seen) == 0
    decreases |w|
  {
    if w != [] {
      NoneLate(w[1..], seen || (w[0].Enter? && w[0].e.Signal?));
    }
  }

  lemma WalkCounts(t: Tree<Entity>)
    ensures Counts(G.Walk(t)) == Plus(Own(G.Enter(t.tag)), Counts(G.WalkAll(t.kids)))
  {
    HeadCounts(G.Enter(t.tag), G.WalkAll(t.kids));
  }

  lemma ConsCounts(t: Tree<Entity>, ts: seq<Tree<Entity>>)
    ensures G.WalkAll([t] + ts) == G.Walk(t) + [G.Leave(t.tag)] + G.WalkAll(ts)
    ensures Counts(G.WalkAll([t] + ts)) == Plus(Counts(G.Walk(t)), Counts(G.WalkAll(ts)))
  {
    assert ([t] + ts)[1..] == ts;
    var l := [G.Leave(t.tag)];
    HeadCounts(l[0], []);
    assert l == [l[0]] + [];
    CountsConcat(G.Walk(t) + l, G.WalkAll(ts));
    CountsConcat(G.Walk(t), l);
  }

  lemma {:induction false} ForestConcat(ts: seq<Tree<Entity>>, us: seq<Tree<Entity>>)
    ensures G.WalkAll(ts + us) == G.WalkAll(ts) + G.WalkAll(us)
    decreases |ts|
  {
    if ts == [] {
      assert ts + us == us;
    } else {
      assert (ts + us)[1..] == ts[1..] + us;
      ForestConcat(ts[1..], us);
      Group(G.Walk(ts[0]) + [G.Leave(ts[0].tag)], G.WalkAll(ts[1..]), G.WalkAll(us));
    }
  }

  lemma ForestCounts(ts: seq<Tree<Entity>>, us: seq<Tree<Entity>>)
    ensures Counts(G.WalkAll(ts + us)) == Plus(Counts(G.WalkAll(ts)), Counts(G.WalkAll(us)))
  {
    ForestConcat(ts, us);
    CountsConcat(G.WalkAll(ts), G.WalkAll(us));
  }

  lemma OneTree(t: Tree<Entity>)
    ensures Counts(G.WalkAll([t])) == Counts(G.Walk(t))
  {
    ConsCounts(t, []);
    assert [t] + [] == [t];
  }

  lemma {:induction false} PlaceCounts(ts: seq<Tree<Entity>>, t: Tree<Entity>)
    ensures Counts(G.WalkAll(Place(ts, t, C.RankOf))) == Plus(Counts(G.WalkAll(ts)), Counts(G.Walk(t)))
    decreases |ts|
  {
    if ts == [] {
      OneTree(t);
    } else if C.RankOf(t) < C.RankOf(ts[0]) {
      ConsCounts(t, ts);
    } else {
      PlaceCounts(ts[1..], t);
      ConsCounts(ts[0], Place(ts[1..], t, C.RankOf));
      ConsCounts(ts[0], ts[1..]);
      assert ts == [ts[0]] + ts[1..];
    }
  }

  lemma {:induction false} OrderedCounts(ts: seq<Tree<Entity>>)
    ensures Counts(G.WalkAll(Ordered(ts, C.RankOf))) == Counts(G.WalkAll(ts))
    decreases |ts|
  {
    if ts != [] {
      var n := |ts| - 1;
      OrderedCounts(ts[..n]);
      PlaceCounts(Ordered(ts[..n], C.RankOf), ts[n]);
      ForestCounts(ts[..n], [ts[n]]);
      OneTree(ts[n]);
      assert ts == ts[..n] + [ts[n]];
    }
  }

  /** Ordering children changes no count. */
  lemma {:induction false} ArrangedCounts(t: Tree<Entity>)
    ensures Counts(G.Walk(C.Arranged(t))) == Counts(G.Walk(t))
    decreases t, 0
  {
    AllArrangedCounts(t.kids);
    OrderedCounts(C.ArrangedAll(t.kids));
    WalkCounts(t);
    WalkCounts(C.Arranged(t));
  }

  lemma {:induction false} AllArrangedCounts(ts: seq<Tree<Entity>>)
    ensures Counts(G.WalkAll(C.ArrangedAll(ts))) == Counts(G.WalkAll(ts))
    decreases ts, 1
  {
    if ts != [] {
      ArrangedCounts(ts[0]);
      AllArrangedCounts(ts[1..]);
      ConsCounts(C.Arranged(ts[0]), C.ArrangedAll(ts[1..]));
      ConsCounts(ts[0], ts[1..]);
      assert ts == [ts[0]] + ts[1..];
    }
  }

  // ---------------------------------------------------------------- one level of an interface

  /** A child that is no property, holds neither properties nor interfaces, and signals only if it is one. */
  predicate Plain(t: Tree<Entity>) {
    var c := Counts(G.Walk(t));
    c.1 == 0 && c.2 == 0 && c.0 == G.One(t.tag.Signal?)
  }

  predicate AllPlain(ts: seq<Tree<Entity>>) {
    forall i | 0 <= i < |ts| :: Plain(ts[i])
  }

  lemma {:induction false} QuietCounts(xs: seq<Doc<Entity>>)
    requires Quiet(xs)
    ensures Counts(G.WalkAll(StripAll(xs))) == (0, 0, 0) && AllPlain(StripAll(xs))
    decreases xs
  {
    if xs != [] {
      QuietCounts(xs[0].kids);
      QuietCounts(xs[1..]);
      WalkCounts(Strip(xs[0]));
      ConsCounts(Strip(xs[0]), StripAll(xs[1..]));
      forall i | 0 <= i < |StripAll(xs)| ensures Plain(StripAll(xs)[i]) {
        assert i > 0 ==> StripAll(xs)[i] == StripAll(xs[1..])[i - 1];
      }
    }
  }

  lemma TailPlain(ms: seq<Doc<Entity>>, behind: seq<Doc<Entity>>)
    requires Quiet(behind)
    ensures Counts(G.WalkAll(Tail(ms, behind))) == (0, 0, 0) && AllPlain(Tail(ms, behind))
  {
    QuietCounts(behind);
    assert G.WalkAll([]) == [];
  }

  lemma MemberPlain(m: Doc<Entity>)
    requires !m.tag.Interface? && !m.tag.Property? && Quiet(m.kids)
    ensures Plain(Strip(m)) && Counts(G.Walk(Strip(m))) == (G.One(m.tag.Signal?), 0, 0)
  {
    QuietCounts(m.kids);
    WalkCounts(Strip(m));
  }

  lemma {:induction false} PlainCounts(ts: seq<Tree<Entity>>)
    requires AllPlain(ts)
    ensures G.Properties(G.WalkAll(ts)) == 0 && G.Interfaces(G.WalkAll(ts)) == 0
    ensures (forall i | 0 <= i < |ts| :: !ts[i].tag.Signal?) ==> G.Signals(G.WalkAll(ts)) == 0
    decreases |ts|
  {
    if ts != [] {
      PlainCounts(ts[1..]);
      ConsCounts(ts[0], ts[1..]);
      assert ts == [ts[0]] + ts[1..];
    }
  }

  lemma PlainArranged(ts: seq<Tree<Entity>>)
    requires AllPlain(ts)
    ensures AllPlain(C.ArrangedAll(ts))
  {
    forall i | 0 <= i < |ts| ensures Plain(C.ArrangedAll(ts)[i]) {
      C.ArrangedAt(ts, i);
      ArrangedCounts(ts[i]);
    }
  }

  lemma {:induction false} ArrangedConcat(ts: seq<Tree<Entity>>, us: seq<Tree<Entity>>)
    ensures C.ArrangedAll(ts + us) == C.ArrangedAll(ts) + C.ArrangedAll(us)
    decreases |ts|
  {
    if ts == [] {
      assert ts + us == us;
    } else {
      assert (ts + us)[1..] == ts[1..] + us;
      ArrangedConcat(ts[1..], us);
    }
  }

  lemma ArrangedOne(t: Tree<Entity>)
    ensures C.ArrangedAll([t]) == [C.Arranged(t)]
  {
    assert [t][1..] == [];
  }

  /** Children as the generator walks them. */
  function Sorted(ts: seq<Tree<Entity>>): seq<Tree<Entity>> {
    Ordered(C.ArrangedAll(ts), C.RankOf)
  }

  lemma SortedMember(ts: seq<Tree<Entity>>, j: nat) returns (i: nat)
    requires j < |Sorted(ts)|
    ensures i < |ts| && Sorted(ts)[j] == C.Arranged(ts[i])
  {
    var us := C.ArrangedAll(ts);
    OrderedSorts(us, C.RankOf);
    assert Sorted(ts)[j] in multiset(us);
    i :| 0 <= i < |us| && us[i] == Sorted(ts)[j];
    C.ArrangedAt(ts, i);
  }

  lemma SortedCounts(ts: seq<Tree<Entity>>)
    ensures Counts(G.WalkAll(Sorted(ts))) == Counts(G.WalkAll(ts))
  {
    AllArrangedCounts(ts);
    OrderedCounts(C.ArrangedAll(ts));
  }

  lemma FindOdd(ls: seq<Tree<Entity>>, t: Tree<Entity>, rs: seq<Tree<Entity>>)
    returns (left: seq<Tree<Entity>>, right: seq<Tree<Entity>>)
    ensures var p := C.Arranged(t);
            && Sorted(ls + [t] + rs) == left + [p] + right
            && multiset(left + [p] + right) == multiset(C.ArrangedAll(ls) + [p] + C.ArrangedAll(rs))
    ensures forall i | 0 <= i < |right| :: C.RankOf(right[i]) >= C.RankOf(t)
  {
    var p, vs := C.Arranged(t), C.ArrangedAll(ls + [t] + rs);
    var us := Ordered(vs, C.RankOf);
    ArrangedConcat(ls + [t], rs);
    ArrangedConcat(ls, [t]);
    ArrangedOne(t);
    OrderedSorts(vs, C.RankOf);
    assert vs[|ls|] == p;
    assert p in multiset(us);
    var n :| 0 <= n < |us| && us[n] == p;
    left, right := us[..n], us[n + 1..];
    Middle(us, n);
    RanksBehind(us, n, right);
  }

  /** Among plain children there is one of another kind; `left` and `right` are its siblings once they are sorted. */
  lemma OddOneOut(ls: seq<Tree<Entity>>, t: Tree<Entity>, rs: seq<Tree<Entity>>)
    returns (left: seq<Tree<Entity>>, right: seq<Tree<Entity>>)
    requires AllPlain(ls) && AllPlain(rs)
    ensures Sorted(ls + [t] + rs) == left + [C.Arranged(t)] + right && AllPlain(left) && AllPlain(right)
    ensures Plus(Counts(G.WalkAll(left)), Counts(G.WalkAll(right))) ==
            Plus(Counts(G.WalkAll(ls)), Counts(G.WalkAll(rs)))
    ensures forall i | 0 <= i < |right| :: C.RankOf(right[i]) >= C.RankOf(t)
  {
    left, right := FindOdd(ls, t, rs);
    OthersPlain(C.ArrangedAll(ls), C.Arranged(t), C.ArrangedAll(rs), left, right) by {
      PlainArranged(ls);
      PlainArranged(rs);
    }
    OddCounts(ls, t, rs, left, right);
  }

  lemma RanksBehind(us: seq<Tree<Entity>>, n: nat, right: seq<Tree<Entity>>)
    requires Ascending(us, C.RankOf) && n < |us| && right == us[n + 1..]
    ensures forall i | 0 <= i < |right| :: C.RankOf(right[i]) >= C.RankOf(us[n])
  {
    forall i | 0 <= i < |right| ensures C.RankOf(right[i]) >= C.RankOf(us[n]) {
      assert right[i] == us[n + 1 + i];
    }
  }

  lemma OthersPlain(ls: seq<Tree<Entity>>, p: Tree<Entity>, rs: seq<Tree<Entity>>, left: seq<Tree<Entity>>,
                    right: seq<Tree<Entity>>)
    requires AllPlain(ls) && AllPlain(rs) && multiset(left + [p] + right) == multiset(ls + [p] + rs)
    ensures AllPlain(left) && AllPlain(right)
  {
    assert multiset(left + [p] + right) == multiset(left) + multiset{p} + multiset(right);
    assert multiset(ls + [p] + rs) == multiset(ls) + multiset{p} + multiset(rs);
    forall x ensures (multiset(left) + multiset(right))[x] == (multiset(ls) + multiset(rs))[x] {
      assert (multiset(left) + multiset{p} + multiset(right))[x] == (multiset(ls) + multiset{p} + multiset(rs))[x];
    }
    forall x | x in left || x in right ensures Plain(x) {
      assert x in multiset(left) + multiset(right);
      assert x in ls || x in rs;
    }
  }

  lemma OddCounts(ls: seq<Tree<Entity>>, t: Tree<Entity>, rs: seq<Tree<Entity>>, left: seq<Tree<Entity>>,
                  right: seq<Tree<Entity>>)
    requires Sorted(ls + [t] + rs) == left + [C.Arranged(t)] + right
    ensures Plus(Counts(G.WalkAll(left)), Counts(G.WalkAll(right))) ==
            Plus(Counts(G.WalkAll(ls)), Counts(G.WalkAll(rs)))
  {
    SortedCounts(ls + [t] + rs);
    ArrangedCounts(t);
    MiddleCounts(ls, t, rs);
    MiddleCounts(left, C.Arranged(t), right);
    Cancel(Counts(G.WalkAll(left)), Counts(G.WalkAll(right)), Counts(G.WalkAll(ls)), Counts(G.WalkAll(rs)),
           Counts(G.Walk(t)));
  }

  lemma Cancel(a: (nat, nat, nat), b: (nat, nat, nat), c: (nat, nat, nat), d: (nat, nat, nat), p: (nat, nat, nat))
    requires Plus(Plus(a, p), b) == Plus(Plus(c, p), d)
    ensures Plus(a, b) == Plus(c, d)
  {
  }

  lemma MiddleCounts(ls: seq<Tree<Entity>>, t: Tree<Entity>, rs: seq<Tree<Entity>>)
    ensures Counts(G.WalkAll(ls + [t] + rs)) ==
            Plus(Plus(Counts(G.WalkAll(ls)), Counts(G.Walk(t))), Counts(G.WalkAll(rs)))
  {
    ForestCounts(ls + [t], rs);
    ForestCounts(ls, [t]);
    OneTree(t);
  }

  lemma MiddleWalk(ls: seq<Tree<Entity>>, t: Tree<Entity>, rs: seq<Tree<Entity>>)
    ensures G.WalkAll(ls + [t] + rs) == G.WalkAll(ls) + (G.Walk(t) + [G.Leave(t.tag)]) + G.WalkAll(rs)
  {
    ForestConcat(ls + [t], rs);
    ForestConcat(ls, [t]);
    assert G.WalkAll([t]) == G.Walk(t) + [G.Leave(t.tag)] by {
      ConsCounts(t, []);
      assert [t] + [] == [t];
    }
  }

  lemma MiddleLate(a: seq<G.Visit>, m: seq<G.Visit>, b: seq<G.Visit>, seen: bool)
    requires G.Properties(a) == 0 && G.Properties(b) == 0
    ensures G.Late(a + m + b, seen) == G.Late(m, seen || G.Signals(a) > 0)
  {
    LateConcat(a + m, b, seen);
    LateConcat(a, m, seen);
    NoneLate(a, seen);
    NoneLate(b, seen || G.Signals(a + m) > 0);
  }

  lemma SignalsLeft(left: seq<Tree<Entity>>, right: seq<Tree<Entity>>, l: (nat, nat, nat), r: (nat, nat, nat))
    requires AllPlain(left) && AllPlain(right) && forall i | 0 <= i < |right| :: C.RankOf(right[i]) >= 4
    requires Plus(Counts(G.WalkAll(left)), Counts(G.WalkAll(right))) == Plus(l, r) && r.0 == 0
    ensures G.Properties(G.WalkAll(left)) == 0 && G.Properties(G.WalkAll(right)) == 0
    ensures G.Signals(G.WalkAll(left)) == l.0
  {
    PlainCounts(left);
    PlainCounts(right);
  }

  lemma PropertyAmong(left: seq<Tree<Entity>>, p: Tree<Entity>, right: seq<Tree<Entity>>, seen: bool)
    requires G.Properties(G.WalkAll(left)) == 0 && G.Properties(G.WalkAll(right)) == 0 && p.tag.Property?
    ensures var now := seen || G.Signals(G.WalkAll(left)) > 0;
            G.Late(G.WalkAll(left + [p] + right), seen) == G.One(now) + G.Late(G.WalkAll(p.kids), now)
  {
    MiddleWalk(left, p, right);
    MiddleLate(G.WalkAll(left), G.Walk(p) + [G.Leave(p.tag)], G.WalkAll(right), seen);
    PropertyLate(p, seen || G.Signals(G.WalkAll(left)) > 0);
  }

  lemma OddProperty(ls: seq<Tree<Entity>>, t: Tree<Entity>, rs: seq<Tree<Entity>>)
    returns (left: seq<Tree<Entity>>, right: seq<Tree<Entity>>)
    requires AllPlain(ls) && AllPlain(rs) && t.tag.Property? && G.Signals(G.WalkAll(rs)) == 0
    ensures Sorted(ls + [t] + rs) == left + [C.Arranged(t)] + right
    ensures G.Properties(G.WalkAll(left)) == 0 && G.Properties(G.WalkAll(right)) == 0
    ensures G.Signals(G.WalkAll(left)) == G.Signals(G.WalkAll(ls))
  {
    left, right := OddOneOut(ls, t, rs);
    SignalsLeft(left, right, Counts(G.WalkAll(ls)), Counts(G.WalkAll(rs)));
  }

  /** A property among plain siblings: it is late if there has been a signal before or is one among them. */
  lemma LevelWithProperty(ls: seq<Tree<Entity>>, t: Tree<Entity>, rs: seq<Tree<Entity>>, seen: bool)
    requires AllPlain(ls) && AllPlain(rs) && t.tag.Property? && G.Signals(G.WalkAll(rs)) == 0
    ensures var now := seen || G.Signals(G.WalkAll(ls)) > 0;
            G.Late(G.WalkAll(Sorted(ls + [t] + rs)), seen) == G.One(now) + G.Late(G.WalkAll(C.Arranged(t).kids), now)
  {
    var left, right := OddProperty(ls, t, rs);
    PropertyAmong(left, C.Arranged(t), right, seen);
  }

  lemma PropertyLate(p: Tree<Entity>, seen: bool)
    requires p.tag.Property?
    ensures G.Late(G.Walk(p) + [G.Leave(p.tag)], seen) == G.One(seen) + G.Late(G.WalkAll(p.kids), seen)
  {
    var l := [G.Leave(p.tag)];
    LateConcat(G.Walk(p), l, seen);
    assert G.Walk(p)[1..] == G.WalkAll(p.kids);
    assert l[1..] == [];
  }

  /** The children of an interface, or of a property in it, as the generator walks them: `pre` has been there before
      the members ms. */
  function Level(pre: seq<Tree<Entity>>, ms: seq<Doc<Entity>>, behind: seq<Doc<Entity>>): seq<Tree<Entity>> {
    Sorted(pre + Nest(ms, behind))
  }

  /** The signals among the children that have been there before. */
  function Before(pre: seq<Tree<Entity>>): nat {
    G.Signals(G.WalkAll(pre))
  }

  lemma PlainLevel(pre: seq<Tree<Entity>>, seen: bool)
    requires AllPlain(pre)
    ensures G.Late(G.WalkAll(Sorted(pre)), seen) == 0
  {
    SortedCounts(pre);
    PlainCounts(pre);
    NoneLate(G.WalkAll(Sorted(pre)), seen);
  }

  lemma PropertyLevel(pre: seq<Tree<Entity>>, ms: seq<Doc<Entity>>, behind: seq<Doc<Entity>>, seen: bool)
    requires AllPlain(pre) && ms != [] && ms[0].tag.Property? && Quiet(behind)
    ensures var now := seen || Before(pre) > 0;
            G.Late(G.WalkAll(Level(pre, ms, behind)), seen) ==
            G.One(now) + G.Late(G.WalkAll(Level(StripAll(ms[0].kids), ms[1..], behind)), now)
  {
    var t := Tree.Node(ms[0].tag, StripAll(ms[0].kids) + Nest(ms[1..], behind));
    var rs := Tail(ms[1..], behind);
    TailPlain(ms[1..], behind);
    Group(pre, [t], rs);
    LevelWithProperty(pre, t, rs, seen);
  }

  lemma OtherLevel(pre: seq<Tree<Entity>>, ms: seq<Doc<Entity>>, behind: seq<Doc<Entity>>)
    requires AllPlain(pre) && Members(ms) && ms != [] && !ms[0].tag.Property?
    ensures AllPlain(pre + [Strip(ms[0])]) && Before(pre + [Strip(ms[0])]) == Before(pre) + G.One(ms[0].tag.Signal?)
    ensures Level(pre, ms, behind) == Level(pre + [Strip(ms[0])], ms[1..], behind)
  {
    MemberPlain(ms[0]);
    ForestCounts(pre, [Strip(ms[0])]);
    OneTree(Strip(ms[0]));
    Group(pre, [Strip(ms[0])], Nest(ms[1..], behind));
  }

  lemma QuietBefore(ms: seq<Doc<Entity>>)
    requires Members(ms) && ms != []
    ensures AllPlain(StripAll(ms[0].kids)) && Before(StripAll(ms[0].kids)) == 0
  {
    QuietCounts(ms[0].kids);
  }

  /** In the walk of a level, the properties after the first signal are those after the first signal of the document. */
  lemma {:induction false} LevelLate(pre: seq<Tree<Entity>>, ms: seq<Doc<Entity>>, behind: seq<Doc<Entity>>, seen: bool)
    requires AllPlain(pre) && Members(ms) && Quiet(behind)
    ensures G.Late(G.WalkAll(Level(pre, ms, behind)), seen) == LateMembers(ms, seen || Before(pre) > 0)
    decreases |ms|
  {
    if ms == [] {
      assert pre + [] == pre;
      PlainLevel(pre, seen);
    } else {
      TailMembers(ms);
      if ms[0].tag.Property? {
        PropertyLevel(pre, ms, behind, seen);
        QuietBefore(ms);
        LevelLate(StripAll(ms[0].kids), ms[1..], behind, seen || Before(pre) > 0);
      } else {
        OtherLevel(pre, ms, behind);
        LevelLate(pre + [Strip(ms[0])], ms[1..], behind, seen);
      }
    }
  }

  lemma PropertyCounts(tag: Entity, us: seq<Tree<Entity>>, vs: seq<Tree<Entity>>)
    requires tag.Property? && Counts(G.WalkAll(us)) == (0, 0, 0)
    ensures Counts(G.Walk(Tree.Node(tag, us + vs))) == Plus((0, 1, 0), Counts(G.WalkAll(vs)))
  {
    ForestCounts(us, vs);
    assert Counts(G.WalkAll(us + vs)) == Counts(G.WalkAll(vs));
    WalkCounts(Tree.Node(tag, us + vs));
    assert Own(G.Enter(tag)) == (0, 1, 0);
  }

  lemma NestedCounts(m: Doc<Entity>, r: seq<Doc<Entity>>, behind: seq<Doc<Entity>>)
    requires m.tag.Property? && Quiet(m.kids) && Quiet(behind)
    ensures var p := Tree.Node(m.tag, StripAll(m.kids) + Nest(r, behind));
            Counts(G.WalkAll([p] + Tail(r, behind))) == Plus((0, 1, 0), Counts(G.WalkAll(Nest(r, behind))))
  {
    QuietCounts(m.kids);
    TailPlain(r, behind);
    PropertyCounts(m.tag, StripAll(m.kids), Nest(r, behind));
    ConsCounts(Tree.Node(m.tag, StripAll(m.kids) + Nest(r, behind)), Tail(r, behind));
  }

  lemma BesideCounts(m: Doc<Entity>, us: seq<Tree<Entity>>)
    requires !m.tag.Interface? && !m.tag.Property? && Quiet(m.kids)
    ensures Counts(G.WalkAll([Strip(m)] + us)) == Plus((G.One(m.tag.Signal?), 0, 0), Counts(G.WalkAll(us)))
  {
    MemberPlain(m);
    ConsCounts(Strip(m), us);
  }

  lemma {:induction false} NestCounts(ms: seq<Doc<Entity>>, behind: seq<Doc<Entity>>)
    requires Members(ms) && Quiet(behind)
    ensures Counts(G.WalkAll(Nest(ms, behind))) == (SignalMembers(ms), PropertyMembers(ms), 0)
    decreases |ms|
  {
    if ms != [] {
      TailMembers(ms);
      NestCounts(ms[1..], behind);
      if ms[0].tag.Property? {
        NestedCounts(ms[0], ms[1..], behind);
      } else {
        BesideCounts(ms[0], Nest(ms[1..], behind));
      }
    }
  }

  // ---------------------------------------------------------------- the header

  /** The walk over such a document's tree: a node, siblings of the interface, the interface around its members, and
      siblings again. */
  function Framed(root: Entity, a: seq<G.Visit>, i: Entity, k: seq<G.Visit>, b: seq<G.Visit>): seq<G.Visit> {
    [G.Enter(root)] + (a + ([G.Enter(i)] + k + [G.Leave(i)]) + b)
  }

  lemma FramedWalk(root: Entity, left: seq<Tree<Entity>>, p: Tree<Entity>, right: seq<Tree<Entity>>)
    ensures G.Walk(Tree.Node(root, left + [p] + right)) ==
            Framed(root, G.WalkAll(left), p.tag, G.WalkAll(p.kids), G.WalkAll(right))
  {
    MiddleWalk(left, p, right);
  }

  lemma NoCounts(a: (nat, nat, nat), b: (nat, nat, nat))
    requires Plus(a, b) == (0, 0, 0)
    ensures a == (0, 0, 0) && b == (0, 0, 0)
  {
  }

  lemma HandedWalk(s: Sole) returns (a: seq<G.Visit>, b: seq<G.Visit>)
    requires s.Ok()
    ensures G.Walk(C.Arranged(s.Built())) ==
            Framed(s.root, a, s.interface, G.WalkAll(Level([], s.members, s.behind)), b)
    ensures Counts(a) == (0, 0, 0) && Counts(b) == (0, 0, 0) && G.Departures(a) == 0
  {
    var rs := Tail(s.members, s.behind);
    QuietCounts(s.before);
    TailPlain(s.members, s.behind);
    var left, right := OddOneOut(StripAll(s.before), s.Inner(), rs);
    NoCounts(Counts(G.WalkAll(left)), Counts(G.WalkAll(right)));
    a, b := G.WalkAll(left), G.WalkAll(right);
    var p := C.Arranged(s.Inner());
    assert p == Tree.Node(s.interface, Level([], s.members, s.behind)) by {
      assert [] + Nest(s.members, s.behind) == Nest(s.members, s.behind);
    }
    FramedWalk(s.root, left, p, right);
    assert C.Arranged(s.Built()) == Tree.Node(s.root, left + [p] + right);
    G.WalkSums(left);
  }

  lemma LeaveCounts(e: Entity)
    ensures Counts([G.Leave(e)]) == (0, 0, 0)
  {
    HeadCounts(G.Leave(e), []);
    assert [G.Leave(e)] == [G.Leave(e)] + [];
  }

  lemma AroundCounts(i: Entity, k: seq<G.Visit>)
    requires i.Interface?
    ensures Counts([G.Enter(i)] + k + [G.Leave(i)]) == Plus(Counts(k), (0, 0, 1))
  {
    var e, l := [G.Enter(i)], [G.Leave(i)];
    CountsConcat(e + k, l);
    HeadCounts(G.Enter(i), k);
    LeaveCounts(i);
  }

  lemma FramedCounts(root: Entity, a: seq<G.Visit>, i: Entity, k: seq<G.Visit>, b: seq<G.Visit>)
    requires root.Node? && i.Interface? && Counts(a) == (0, 0, 0) && Counts(b) == (0, 0, 0)
    ensures Counts(Framed(root, a, i, k, b)) == Plus(Counts(k), (0, 0, 1))
  {
    var m := [G.Enter(i)] + k + [G.Leave(i)];
    HeadCounts(G.Enter(root), a + m + b);
    CountsConcat(a + m, b);
    CountsConcat(a, m);
    AroundCounts(i, k);
  }

  lemma FramedLate(root: Entity, a: seq<G.Visit>, i: Entity, k: seq<G.Visit>, b: seq<G.Visit>)
    requires root.Node? && i.Interface? && Counts(a) == (0, 0, 0) && Counts(b) == (0, 0, 0)
    ensures G.Late(Framed(root, a, i, k, b), false) == G.Late(k, false)
  {
    var e, l := [G.Enter(i)], [G.Leave(i)];
    var m := e + k + l;
    assert Framed(root, a, i, k, b)[1..] == a + m + b;
    MiddleLate(a, m, b, false);
    LateConcat(e + k, l, false);
    assert (e + k)[1..] == k;
    assert l[1..] == [];
  }

  lemma {:induction false} UntilBehind(a: seq<G.Visit>, w: seq<G.Visit>)
    requires G.Departures(a) == 0
    ensures G.Until(a + w) == G.Properties(a) + G.Until(w)
    decreases |a|
  {
    if a == [] {
      assert a + w == w;
    } else {
      assert (a + w)[1..] == a[1..] + w;
      UntilBehind(a[1..], w);
    }
  }

  lemma FramedUntil(root: Entity, a: seq<G.Visit>, i: Entity, k: seq<G.Visit>, b: seq<G.Visit>)
    requires root.Node? && i.Interface? && G.Departures(k) == 0 && G.Departures(a) == 0 && Counts(a) == (0, 0, 0)
    ensures G.Until(Framed(root, a, i, k, b)) == G.Properties(k)
  {
    var e, l := [G.Enter(i)], [G.Leave(i)];
    var m := e + k + l;
    assert Framed(root, a, i, k, b)[1..] == a + m + b == a + (m + b);
    UntilBehind(a, m + b);
    assert (m + b)[1..] == k + (l + b);
    UntilBehind(k, l + b);
    assert (l + b)[0] == G.Leave(i);
  }

  lemma HandedCounts(s: Sole)
    requires s.Ok()
    ensures var w := G.Walk(C.Arranged(s.Built()));
            && Counts(w) == (SignalMembers(s.members), PropertyMembers(s.members), 1)
            && G.Late(w, false) == LateMembers(s.members, false)
            && G.Until(w) == PropertyMembers(s.members)
  {
    var k := G.WalkAll(Level([], s.members, s.behind));
    var a, b := HandedWalk(s);
    LevelCounts(s.members, s.behind);
    LevelLate([], s.members, s.behind, false);
    G.WalkSums(Level([], s.members, s.behind));
    FramedCounts(s.root, a, s.interface, k, b);
    FramedLate(s.root, a, s.interface, k, b);
    FramedUntil(s.root, a, s.interface, k, b);
  }

  lemma LevelCounts(ms: seq<Doc<Entity>>, behind: seq<Doc<Entity>>)
    requires Members(ms) && Quiet(behind)
    ensures Counts(G.WalkAll(Level([], ms, behind))) == (SignalMembers(ms), PropertyMembers(ms), 0)
  {
    NestCounts(ms, behind);
    assert [] + Nest(ms, behind) == Nest(ms, behind);
    SortedCounts(Nest(ms, behind));
  }

  /** What a document's header consists of. */
  function Header(xs: seq<Doc<Entity>>): seq<G.Line>
    requires Through(xs)
  {
    G.Written(G.BLANK, G.Walk(C.Arranged(Grown(xs)))).lines
  }

  /** Parsing, compiling and generating. */
  method Generate(xs: seq<Xml>) returns (lines: seq<G.Line>)
    requires AllFine(EventsAll(xs)) && Through(SpliceAll(xs))
    ensures lines == Header(SpliceAll(xs))
  {
    var compiler := new C.Context();
    var generator := new G.Context();
    var outcome := compiler.Process(xs);
    generator.Apply(C.View(compiler.elements, 0));
    lines := generator.buffer;
  }

  lemma {:induction false} NoSignalNoneLate(ms: seq<Doc<Entity>>)
    ensures SignalMembers(ms) == 0 ==> LateMembers(ms, false) == 0
  {
    if ms != [] {
      NoSignalNoneLate(ms[1..]);
    }
  }

  /** For one interface, whatever quiet elements stand beside it, the header has one brace too many for the struct
      around signals and closes one too many at every property after the first signal, so it balances exactly when
      there is no signal, or exactly one such property. */
  lemma HeaderBalanced(s: Sole)
    requires s.Ok()
    ensures var depth := G.Depth(Header([s.Document()]));
            && depth == G.One(SignalMembers(s.members) > 0) - LateMembers(s.members, false)
            && (depth == 0 <==> SignalMembers(s.members) == 0 || LateMembers(s.members, false) == 1)
  {
    NestBuilt(s);
    HandedCounts(s);
    G.OneInterfaceDepth(C.Arranged(s.Built()));
    NoSignalNoneLate(s.members);
  }

  /** The header of a document with a signal and nothing else never closes the struct around signals. */
  lemma SignalOnly(a: Attributes)
    ensures var xs := [Element("node", a, [Element("interface", a, [EmptyElement("signal", a)])])];
            var ms := [Doc(Signal(a.name), [], false)];
            var x := Doc(Entity.Node(a.name), [Doc(Interface(a.name), ms, false)], false);
            SingleRooted(xs, x) && G.Depth(Header([x])) == 1
  {
    var s := EmptyElement("signal", a);
    var i := Element("interface", a, [s]);
    var n := Element("node", a, [i]);
    OneSplice(s);
    OneSplice(i);
    OneSplice(n);
    var ms := [Doc(Signal(a.name), [], false)];
    assert ms[1..] == [];
    var d := Doc(Interface(a.name), ms, false);
    assert [] + [d] + [] == [d];
    HeaderBalanced(Sole(Entity.Node(a.name), [], Interface(a.name), ms, []));
  }

  /** Two interfaces with dotted names and nothing inside: the second one closes the first one's namespace again. */
  lemma TwoInterfaceDocument(a: Attributes)
    ensures var b, c := a.(name := "a.I"), a.(name := "a.J");
            var xs := [Element("node", a.(name := "/"), [EmptyElement("interface", b), EmptyElement("interface", c)])];
            var x := Doc(Entity.Node("/"), [Doc(Interface("a.I"), [], false), Doc(Interface("a.J"), [], false)], false);
            SingleRooted(xs, x) && G.Depth(Header([x])) == -1
  {
    var b, c := EmptyElement("interface", a.(name := "a.I")), EmptyElement("interface", a.(name := "a.J"));
    var n := Element("node", a.(name := "/"), [b, c]);
    var i, j := Interface("a.I"), Interface("a.J");
    var xs := [Doc(i, [], false), Doc(j, [], false)];
    OneSplice(b);
    OneSplice(c);
    TwoSplices(b, c);
    OneSplice(n);
    assert Splice(b) + Splice(c) == xs;
    PairArranged(i, j);
    GrownSingle(Doc(Entity.Node("/"), xs, false));
    GrownFaithful(Entity.Node("/"), xs);
    G.TwoInterfaces();
  }

  lemma PairArranged(i: Entity, j: Entity)
    requires Rank(i) == Rank(j)
    ensures var xs := [Doc(i, [], false), Doc(j, [], false)];
            var ts := [Tree.Node(i, []), Tree.Node(j, [])];
            Clean(xs) && StripAll(xs) == ts && Ordered(C.ArrangedAll(ts), C.RankOf) == ts
  {
    var t, u := Tree.Node(i, []), Tree.Node(j, []);
    var x, y := Doc(i, [], false), Doc(j, [], false);
    assert [x, y][1..] == [y] && [y][1..] == [];
    assert StripAll([y]) == [u] && Clean([y]);
    ArrangedOne(t);
    ArrangedOne(u);
    ArrangedConcat([t], [u]);
    assert [t] + [u] == [t, u];
    OrderedSnoc([], t, C.RankOf);
    OrderedSnoc([t], u, C.RankOf);
  }
}
