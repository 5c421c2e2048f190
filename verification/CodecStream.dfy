/**
 The templates themselves, driving the cursors: each encode_argument appends what Codec.Encode says, each
 decode_argument reads what Codec.Decode says and throws where it does.
 */
module CodecStream {
  import opened Types
  import opened Codec
  import opened Sequences
  import M = Message
  import opened Wrappers

  /** Codec<T>::encode_argument. */
  method EncodeArgument(out: M.Writer, ty: Ty, v: Val)
    requires HasType(ty, v)
    modifies out
    ensures out.items == old(out.items) + Encode(ty, v)
    decreases ty, 0
  {
    match ty
    case Scalar(k) => out.Push(k, v.atom);
    case Vec(e) => EncodeVector(out, e, v.items);
    case Map(k, u) => EncodeMap(out, k, u, v.entries);
    case Tuple(fs) => EncodeTuple(out, fs, v.slots);
    case Struct(t) =>
      var sw := out.Open("");
      EncodeArgument(sw, t, v.value);
      assert sw.items == Encode(t, v.value);
      out.CloseStructure(sw);
    case Variant(t) =>
      var vw := out.Open(Signature(t));
      EncodeArgument(vw, t, v.held);
      assert vw.items == Encode(t, v.held);
      out.CloseVariant(vw);
  }

  method EncodeVector(out: M.Writer, e: Ty, vs: seq<Val>)
    requires forall i | 0 <= i < |vs| :: HasType(e, vs[i])
    modifies out
    ensures out.items == old(out.items) + [M.Array(Signature(e), EncodeEach(e, vs))]
    decreases e, 1
  {
    var aw := out.Open(Signature(e));
    for n := 0 to |vs|
      invariant aw.items == EncodeEach(e, vs[..n])
      invariant out.items == old(out.items)
    {
      EncodeArgument(aw, e, vs[n]);
      EncodeEachSnoc(e, vs[..n], vs[n]);
      TakeSnoc(vs, n);
    }
    assert vs[..|vs|] == vs;
    out.CloseArray(aw);
  }

  method EncodeMap(out: M.Writer, k: Kind, u: Ty, es: seq<(Atom, Val)>)
    requires forall i | 0 <= i < |es| :: OfKind(k, es[i].0) && HasType(u, es[i].1)
    modifies out
    ensures out.items == old(out.items) + [M.Array(PairSignature(k, u), EncodeEntries(k, u, es))]
    decreases u, 2
  {
    var aw := out.Open(PairSignature(k, u));
    for n := 0 to |es|
      invariant aw.items == EncodeEntries(k, u, es[..n])
      invariant out.items == old(out.items)
    {
      var de := aw.Open("");
      EncodePair(de, k, u, es[n]);
      assert de.items == EncodeEntry(k, u, es[n]);
      aw.CloseDictEntry(de);
      EncodeEntriesSnoc(k, u, es[..n], es[n]);
      TakeSnoc(es, n);
    }
    assert es[..|es|] == es;
    out.CloseArray(aw);
  }

  /** Codec<std::pair<T, U>>::encode_argument. */
  method EncodePair(out: M.Writer, k: Kind, u: Ty, x: (Atom, Val))
    requires OfKind(k, x.0) && HasType(u, x.1)
    modifies out
    ensures out.items == old(out.items) + EncodeEntry(k, u, x)
    decreases u, 1
  {
    out.Push(k, x.0);
    EncodeArgument(out, u, x.1);
    Group(old(out.items), [M.Basic(M.ToWire(k, x.0))], Encode(u, x.1));
  }

  /** CodecApply<Tuple, n, size>::encode_argument. */
  method EncodeTuple(out: M.Writer, fs: Fields, vs: Vals)
    requires HaveTypes(fs, vs)
    modifies out
    ensures out.items == old(out.items) + EncodeFields(fs, vs)
    decreases fs, 1
  {
    match fs
    case Last(t) => EncodeArgument(out, t, vs.val);
    case More(t, r) =>
      EncodeArgument(out, t, vs.val);
      EncodeTuple(out, r, vs.rest);
      Group(old(out.items), Encode(t, vs.val), EncodeFields(r, vs.rest));
  }

  lemma {:induction false} EncodeEachSnoc(e: Ty, vs: seq<Val>, v: Val)
    requires (forall i | 0 <= i < |vs| :: HasType(e, vs[i])) && HasType(e, v)
    ensures EncodeEach(e, vs + [v]) == EncodeEach(e, vs) + Encode(e, v)
    decreases |vs|
  {
    if vs == [] {
      assert [v][1..] == [];
      assert vs + [v] == [v];
    } else {
      assert (vs + [v])[1..] == vs[1..] + [v];
      EncodeEachSnoc(e, vs[1..], v);
    }
  }

  lemma {:induction false} EncodeEntriesSnoc(k: Kind, u: Ty, es: seq<(Atom, Val)>, x: (Atom, Val))
    requires forall i | 0 <= i < |es| :: OfKind(k, es[i].0) && HasType(u, es[i].1)
    requires OfKind(k, x.0) && HasType(u, x.1)
    ensures EncodeEntries(k, u, es + [x]) == EncodeEntries(k, u, es) + [M.DictEntry(EncodeEntry(k, u, x))]
    decreases |es|
  {
    if es == [] {
      assert [x][1..] == [];
      assert es + [x] == [x];
    } else {
      assert (es + [x])[1..] == es[1..] + [x];
      EncodeEntriesSnoc(k, u, es[1..], x);
    }
  }

  /** A read that either throws or stores a value and leaves `rest`, as `spec` says. */
  ghost predicate Outcome<X>(spec: Option<(X, seq<M.Item>)>, r: Option<X>, rest: seq<M.Item>) {
    match spec
    case None => r.None?
    case Some((v, q)) => r == Some(v) && rest == q
  }

  /** Codec<T>::decode_argument into an object holding `target`; None stands for the exception. */
  method DecodeArgument(inp: M.Reader, ty: Ty, target: Val) returns (r: Option<Val>)
    requires HasType(ty, target)
    modifies inp
    ensures Outcome(Decode(ty, target, old(inp.rest)), r, inp.rest)
    decreases ty, 0
  {
    match ty
    case Scalar(k) =>
      var a := inp.Pop(k);
      if a.None? { return None; }
      r := Some(Single(a.value));
    case Vec(e) =>
      r := DecodeVector(inp, e, target.items);
    case Map(k, u) =>
      r := DecodeMap(inp, k, u, target.entries);
    case Tuple(fs) =>
      var vs := DecodeTuple(inp, fs, target.slots);
      if vs.None? { return None; }
      r := Some(Slots(vs.value));
    case Struct(t) =>
      DecodeContainer(ty, target, inp.rest);
      var sub := inp.Recurse();
      if sub.None? { return None; }
      var v := DecodeArgument(sub.value, t, target.value);
      if v.None? { return None; }
      r := Some(Wrapped(v.value));
    case Variant(t) =>
      DecodeContainer(ty, target, inp.rest);
      var sub := inp.Recurse();
      if sub.None? { return None; }
      var v := DecodeArgument(sub.value, t, target.held);
      if v.None? { return None; }
      r := Some(Held(v.value));
  }

  /** The elements decoded so far, in front of what the remaining items decode to. */
  ghost function After<X>(done: seq<X>, rest: Option<seq<X>>): Option<seq<X>> {
    match rest
    case None => None
    case Some(xs) => Some(done + xs)
  }

  lemma AfterOne<X>(done: seq<X>, x: X, rest: Option<seq<X>>)
    ensures After(done, After([x], rest)) == After(done + [x], rest)
    ensures After([], rest) == rest
    ensures After(done, Some([])) == Some(done)
  {
    assert done + [] == done;
    if rest.Some? {
      assert done + ([x] + rest.value) == done + [x] + rest.value;
      assert [] + rest.value == rest.value;
    }
  }

  lemma DecodeContainer(ty: Ty, target: Val, items: seq<M.Item>)
    requires HasType(ty, target) && !ty.Scalar? && !ty.Tuple?
    ensures M.Inner(items).None? ==> Decode(ty, target, items).None?
    ensures M.Inner(items).Some? ==>
              Decode(ty, target, items) ==
              match DecodeContents(ty, target, M.Inner(items).value)
              case None => None
              case Some(v) => Some((v, items[1..]))
  {
  }

  method DecodeVector(inp: M.Reader, e: Ty, target: seq<Val>) returns (r: Option<Val>)
    requires forall i | 0 <= i < |target| :: HasType(e, target[i])
    modifies inp
    ensures Outcome(Decode(Vec(e), Items(target), old(inp.rest)), r, inp.rest)
    decreases e, 1
  {
    DecodeContainer(Vec(e), Items(target), inp.rest);
    var sub := inp.Recurse();
    if sub.None? { return None; }
    var ar := sub.value;
    var out := target;
    ghost var whole := DecodeEach(e, ar.rest);
    ghost var done := [];
    AfterOne([], Default(e), whole);
    while ar.Type() != M.INVALID
      invariant fresh(ar) && inp.rest == old(inp.rest)[1..]
      invariant out == target + done
      invariant whole == After(done, DecodeEach(e, ar.rest))
      decreases |ar.rest|
    {
      if ar.rest != [] { M.TypeCodeValid(ar.rest[0]); }
      var v := DecodeArgument(ar, e, Default(e));
      if v.None? { return None; }
      AfterOne(done, v.value, DecodeEach(e, ar.rest));
      done := done + [v.value];
      out := out + [v.value];
    }
    if ar.rest != [] { M.TypeCodeValid(ar.rest[0]); }
    AfterOne(done, Default(e), Some([]));
    r := Some(Items(out));

  }

  method DecodeMap(inp: M.Reader, k: Kind, u: Ty, target: seq<(Atom, Val)>) returns (r: Option<Val>)
    requires HasType(Map(k, u), Entries(target))
    modifies inp
    ensures Outcome(Decode(Map(k, u), Entries(target), old(inp.rest)), r, inp.rest)
    decreases u, 1
  {
    var out: seq<(Atom, Val)> := [];
    DecodeContainer(Map(k, u), Entries(target), inp.rest);
    var sub := inp.Recurse();
    if sub.None? { return None; }
    var ar := sub.value;
    ghost var whole := DecodeEntries(k, u, ar.rest);
    ghost var done := [];
    ghost var any := (Default(Scalar(k)).atom, Default(u));
    AfterOne([], any, whole);
    while ar.Type() != M.INVALID
      invariant fresh(ar) && inp.rest == old(inp.rest)[1..]
      invariant out == PutAll([], done)
      invariant whole == After(done, DecodeEntries(k, u, ar.rest))
      decreases |ar.rest|
    {
      if ar.rest != [] { M.TypeCodeValid(ar.rest[0]); }
      var de := ar.Recurse();
      if de.None? { return None; }
      var first := de.value.Pop(k);
      if first.None? { return None; }
      var second := DecodeArgument(de.value, u, Default(u));
      if second.None? { return None; }
      PutAllSnoc([], done, first.value, second.value);
      AfterOne(done, (first.value, second.value), DecodeEntries(k, u, ar.rest));
      done := done + [(first.value, second.value)];
      out := Put(out, first.value, second.value);
    }
    if ar.rest != [] { M.TypeCodeValid(ar.rest[0]); }
    AfterOne(done, any, Some([]));
    r := Some(Entries(out));
  }

  lemma {:induction false} PutAllSnoc(es: seq<(Atom, Val)>, ps: seq<(Atom, Val)>, k: Atom, v: Val)
    ensures PutAll(es, ps + [(k, v)]) == Put(PutAll(es, ps), k, v)
    decreases |ps|
  {
    if ps == [] {
      assert ps + [(k, v)] == [(k, v)];
      assert [(k, v)][1..] == [];
    } else {
      assert (ps + [(k, v)])[1..] == ps[1..] + [(k, v)];
      PutAllSnoc(Put(es, ps[0].0, ps[0].1), ps[1..], k, v);
    }
  }

  /** CodecApply<Tuple, n, size>::decode_argument. */
  method DecodeTuple(inp: M.Reader, fs: Fields, targets: Vals) returns (r: Option<Vals>)
    requires HaveTypes(fs, targets)
    modifies inp
    ensures Outcome(DecodeFields(fs, targets, old(inp.rest)), r, inp.rest)
    decreases fs, 1
  {
    match fs
    case Last(t) =>
      var v := DecodeArgument(inp, t, targets.val);
      if v.None? { return None; }
      r := Some(End(v.value));
    case More(t, q) =>
      var v := DecodeArgument(inp, t, targets.val);
      if v.None? { return None; }
      var vs := DecodeTuple(inp, q, targets.rest);
      if vs.None? { return None; }
      r := Some(Then(v.value, vs.value));
  }

  /** Writing a value behind whatever a message holds and reading it from there gives it back, and leaves the reader
      at what was written after it. */
  method WriteThenRead(out: M.Writer, ty: Ty, v: Val, after: seq<M.Item>) returns (r: Option<Val>, inp: M.Reader)
    requires HasType(ty, v) && NulFree(v)
    modifies out
    ensures r == Some(v) && inp.rest == after
  {
    var at := |out.items|;
    EncodeArgument(out, ty, v);
    inp := new M.Reader(out.items[at..] + after);
    assert inp.rest == Encode(ty, v) + after;
    DecodeEncoded(ty, Default(ty), v, after);
    AbsorbDefault(ty, v);
    r := DecodeArgument(inp, ty, Default(ty));
  }
}
