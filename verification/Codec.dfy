/**
 Codec<T> for scalars, std::string, std::vector, std::map, std::tuple, Struct and Variant, and the recursion over
 parameter packs (include/core/dbus/codec.h, include/core/dbus/types/): what is appended and what is read.
 */
module Codec {
  import opened Types
  import M = Message
  import opened Wrappers

  // ---------------------------------------------------------------- encoding

  function Encode(ty: Ty, v: Val): seq<M.Item>
    requires HasType(ty, v)
    decreases ty, 0
  {
    match ty
    case Scalar(k) => [M.Basic(M.ToWire(k, v.atom))]
    case Vec(e) => [M.Array(Signature(e), EncodeEach(e, v.items))]
    case Map(k, u) => [M.Array(PairSignature(k, u), EncodeEntries(k, u, v.entries))]
    case Tuple(fs) => EncodeFields(fs, v.slots)
    case Struct(t) => [M.Struct(Encode(t, v.value))]
    case Variant(t) => [M.Variant(Signature(t), Encode(t, v.held))]
  }

  function EncodeEach(e: Ty, vs: seq<Val>): seq<M.Item>
    requires forall i | 0 <= i < |vs| :: HasType(e, vs[i])
    decreases e, |vs| + 1
  {
    if vs == [] then [] else Encode(e, vs[0]) + EncodeEach(e, vs[1..])
  }

  function EncodeEntry(k: Kind, u: Ty, x: (Atom, Val)): seq<M.Item>
    requires OfKind(k, x.0) && HasType(u, x.1)
    decreases u, 1
  {
    [M.Basic(M.ToWire(k, x.0))] + Encode(u, x.1)
  }

  function EncodeEntries(k: Kind, u: Ty, es: seq<(Atom, Val)>): seq<M.Item>
    requires forall i | 0 <= i < |es| :: OfKind(k, es[i].0) && HasType(u, es[i].1)
    decreases u, |es| + 2
  {
    if es == [] then [] else [M.DictEntry(EncodeEntry(k, u, es[0]))] + EncodeEntries(k, u, es[1..])
  }

  function EncodeFields(fs: Fields, vs: Vals): seq<M.Item>
    requires HaveTypes(fs, vs)
    decreases fs, 0
  {
    match fs
    case Last(t) => Encode(t, vs.val)
    case More(t, r) => Encode(t, vs.val) + EncodeFields(r, vs.rest)
  }

  // ---------------------------------------------------------------- decoding

  /** decode_argument into an object that holds `target`: the object's new value and the items left over. */
  function Decode(ty: Ty, target: Val, items: seq<M.Item>): (r: Option<(Val, seq<M.Item>)>)
    requires HasType(ty, target)
    ensures r.Some? ==> HasType(ty, r.value.0) && |r.value.1| < |items|
    decreases ty, 1
  {
    match ty
    case Scalar(k) =>
      (match M.PopSpec(k, items)
       case None => None
       case Some(a) => Some((Single(a), items[1..])))
    case Tuple(fs) =>
      (match DecodeFields(fs, target.slots, items)
       case None => None
       case Some((vs, rest)) => Some((Slots(vs), rest)))
    case _ =>
      match M.Inner(items)
      case None => None
      case Some(sub) =>
        match DecodeContents(ty, target, sub)
        case None => None
        case Some(v) => Some((v, items[1..]))
  }

  /** Reading a container's contents; what is left inside a struct, a variant or a dict entry is ignored. */
  function DecodeContents(ty: Ty, target: Val, sub: seq<M.Item>): (r: Option<Val>)
    requires HasType(ty, target) && !ty.Scalar? && !ty.Tuple?
    ensures r.Some? ==> HasType(ty, r.value)
    decreases ty, 0
  {
    match ty
    case Vec(e) =>
      (match DecodeEach(e, sub)
       case None => None
       case Some(vs) => Some(Items(target.items + vs)))
    case Map(k, u) =>
      (match DecodeEntries(k, u, sub)
       case None => None
       case Some(ps) =>
         PutAllTyped(k, u, [], ps);
         Some(Entries(PutAll([], ps))))
    case Struct(t) =>
      (match Decode(t, target.value, sub)
       case None => None
       case Some((v, _)) => Some(Wrapped(v)))
    case Variant(t) =>
      match Decode(t, target.held, sub)
      case None => None
      case Some((v, _)) => Some(Held(v))
  }

  function DecodeEach(e: Ty, items: seq<M.Item>): (r: Option<seq<Val>>)
    ensures r.Some? ==> forall i | 0 <= i < |r.value| :: HasType(e, r.value[i])
    decreases e, |items| + 2
  {
    if items == [] then Some([])
    else
      match Decode(e, Default(e), items)
      case None => None
      case Some((v, rest)) =>
        match DecodeEach(e, rest)
        case None => None
        case Some(vs) => Some([v] + vs)
  }

  function DecodePair(k: Kind, u: Ty, sub: seq<M.Item>): (r: Option<(Atom, Val)>)
    ensures r.Some? ==> OfKind(k, r.value.0) && HasType(u, r.value.1)
    decreases u, 2
  {
    match M.PopSpec(k, sub)
    case None => None
    case Some(a) =>
      match Decode(u, Default(u), sub[1..])
      case None => None
      case Some((v, _)) => Some((a, v))
  }

  function DecodeEntries(k: Kind, u: Ty, items: seq<M.Item>): (r: Option<seq<(Atom, Val)>>)
    ensures r.Some? ==> forall i | 0 <= i < |r.value| :: OfKind(k, r.value[i].0) && HasType(u, r.value[i].1)
    decreases u, |items| + 3
  {
    if items == [] then Some([])
    else
      match M.Inner(items)
      case None => None
      case Some(sub) =>
        match DecodePair(k, u, sub)
        case None => None
        case Some(p) =>
          match DecodeEntries(k, u, items[1..])
          case None => None
          case Some(ps) => Some([p] + ps)
  }

  function DecodeFields(fs: Fields, targets: Vals, items: seq<M.Item>): (r: Option<(Vals, seq<M.Item>)>)
    requires HaveTypes(fs, targets)
    ensures r.Some? ==> HaveTypes(fs, r.value.0) && |r.value.1| < |items|
    decreases fs, 0
  {
    match fs
    case Last(t) =>
      (match Decode(t, targets.val, items)
       case None => None
       case Some((v, rest)) => Some((End(v), rest)))
    case More(t, r) =>
      match Decode(t, targets.val, items)
      case None => None
      case Some((v, rest)) =>
        match DecodeFields(r, targets.rest, rest)
        case None => None
        case Some((vs, q)) => Some((Then(v, vs), q))
  }

  // ---------------------------------------------------------------- what can be decoded

  /** An item that can be opened. */
  predicate Opens(x: M.Item) {
    var c := M.TypeCode(x);
    c == 'a' || c == 'r' || c == 'v' || c == 'e'
  }

  /** The items in front have the type codes of this type; inside a struct, a variant or a dict entry more may follow,
      and the signatures of containers do not matter. */
  predicate Fits(ty: Ty, items: seq<M.Item>)
    decreases ty, 0
  {
    match ty
    case Scalar(k) => items != [] && M.TypeCode(items[0]) == Code(k)
    case Vec(e) => items != [] && Opens(items[0]) && FitsEach(e, items[0].items)
    case Map(k, u) => items != [] && Opens(items[0]) && FitEntries(k, u, items[0].items)
    case Tuple(fs) => FitsFields(fs, items)
    case Struct(t) => items != [] && Opens(items[0]) && Fits(t, items[0].items)
    case Variant(t) => items != [] && Opens(items[0]) && Fits(t, items[0].items)
  }

  /** All of an array's dict entries. */
  predicate FitEntries(k: Kind, u: Ty, items: seq<M.Item>)
    decreases u, 2
  {
    forall i | 0 <= i < |items| :: FitsEntry(k, u, items[i])
  }

  /** All items, from the first to the last. */
  predicate FitsEach(e: Ty, items: seq<M.Item>)
    decreases e, |items| + 1
  {
    items == [] || (Fits(e, items) && Width(e) <= |items| && FitsEach(e, items[Width(e)..]))
  }

  predicate FitsEntry(k: Kind, u: Ty, x: M.Item)
    decreases u, 1
  {
    Opens(x) && x.items != [] && M.TypeCode(x.items[0]) == Code(k) && Fits(u, x.items[1..])
  }

  predicate FitsFields(fs: Fields, items: seq<M.Item>)
    decreases fs, 0
  {
    && Fits(fs.ty, items)
    && (fs.More? ==> Width(fs.ty) <= |items| && FitsFields(fs.rest, items[Width(fs.ty)..]))
  }

  /** Decoding succeeds exactly on items that fit, whatever the target holds, and reads as many as the type is wide. */
  lemma {:induction false} DecodesExactly(ty: Ty, target: Val, items: seq<M.Item>)
    requires HasType(ty, target)
    ensures Decode(ty, target, items).Some? <==> Fits(ty, items)
    ensures Fits(ty, items) ==>
              Width(ty) <= |items| && Decode(ty, target, items).value.1 == items[Width(ty)..]
    decreases ty, 1
  {
    match ty
    case Scalar(_) =>
    case Tuple(fs) => FieldsDecodeExactly(fs, target.slots, items);
    case Vec(e) => if M.Inner(items).Some? { EachDecodesExactly(e, items[0].items); }
    case Map(k, u) => if M.Inner(items).Some? { EntriesDecodeExactly(k, u, items[0].items); }
    case Struct(t) => if M.Inner(items).Some? { DecodesExactly(t, target.value, items[0].items); }
    case Variant(t) => if M.Inner(items).Some? { DecodesExactly(t, target.held, items[0].items); }
  }

  lemma {:induction false} EachDecodesExactly(e: Ty, items: seq<M.Item>)
    ensures DecodeEach(e, items).Some? <==> FitsEach(e, items)
    decreases e, |items| + 2
  {
    if items != [] {
      DecodesExactly(e, Default(e), items);
      if Fits(e, items) {
        EachDecodesExactly(e, items[Width(e)..]);
      }
    }
  }

  lemma FitEntriesTail(k: Kind, u: Ty, items: seq<M.Item>)
    requires items != []
    ensures FitEntries(k, u, items) <==> FitsEntry(k, u, items[0]) && FitEntries(k, u, items[1..])
  {
    assert forall i | 0 <= i < |items[1..]| :: items[1..][i] == items[i + 1];
    forall i | 0 < i < |items| ensures items[i] == items[1..][i - 1] {}
  }

  lemma {:induction false} PairDecodesExactly(k: Kind, u: Ty, sub: seq<M.Item>)
    ensures DecodePair(k, u, sub).Some? <==> sub != [] && M.TypeCode(sub[0]) == Code(k) && Fits(u, sub[1..])
    decreases u, 2
  {
    if sub != [] {
      DecodesExactly(u, Default(u), sub[1..]);
    }
  }

  lemma {:induction false} EntriesDecodeExactly(k: Kind, u: Ty, items: seq<M.Item>)
    ensures DecodeEntries(k, u, items).Some? <==> FitEntries(k, u, items)
    decreases u, |items| + 3
  {
    if items != [] {
      FitEntriesTail(k, u, items);
      EntriesDecodeExactly(k, u, items[1..]);
      if !items[0].Basic? {
        PairDecodesExactly(k, u, items[0].items);
      }
    }
  }

  lemma {:induction false} FieldsDecodeExactly(fs: Fields, targets: Vals, items: seq<M.Item>)
    requires HaveTypes(fs, targets)
    ensures DecodeFields(fs, targets, items).Some? <==> FitsFields(fs, items)
    ensures FitsFields(fs, items) ==>
              FieldsWidth(fs) <= |items| && DecodeFields(fs, targets, items).value.1 == items[FieldsWidth(fs)..]
    decreases fs, 0
  {
    DecodesExactly(fs.ty, targets.val, items);
    if fs.More? && Fits(fs.ty, items) {
      FieldsDecodeExactly(fs.rest, targets.rest, items[Width(fs.ty)..]);
    }
  }

  function PutAll(es: seq<(Atom, Val)>, ps: seq<(Atom, Val)>): seq<(Atom, Val)>
    decreases |ps|
  {
    if ps == [] then es else PutAll(Put(es, ps[0].0, ps[0].1), ps[1..])
  }

  lemma {:induction false} PutAllTyped(k: Kind, u: Ty, es: seq<(Atom, Val)>, ps: seq<(Atom, Val)>)
    requires HasType(Map(k, u), Entries(es))
    requires forall i | 0 <= i < |ps| :: OfKind(k, ps[i].0) && HasType(u, ps[i].1)
    ensures HasType(Map(k, u), Entries(PutAll(es, ps)))
    decreases |ps|
  {
    if ps != [] {
      var r := Put(es, ps[0].0, ps[0].1);
      PutSorted(k, es, ps[0].0, ps[0].1);
      forall i | 0 <= i < |r| ensures HasType(u, r[i].1) {
        PutMembers(es, ps[0].0, ps[0].1, i);
      }
      PutAllTyped(k, u, r, ps[1..]);
    }
  }

  // ---------------------------------------------------------------- map decoding: last duplicate wins

  /** The finite map a list of pairs stands for when later pairs win. */
  function LastWins(m: map<Atom, Val>, ps: seq<(Atom, Val)>): map<Atom, Val>
    decreases |ps|
  {
    if ps == [] then m else LastWins(m[ps[0].0 := ps[0].1], ps[1..])
  }

  lemma {:induction false} PutAllIsLastWins(es: seq<(Atom, Val)>, ps: seq<(Atom, Val)>)
    ensures AsMap(PutAll(es, ps)) == LastWins(AsMap(es), ps)
    decreases |ps|
  {
    if ps != [] {
      PutIsUpdate(es, ps[0].0, ps[0].1);
      PutAllIsLastWins(Put(es, ps[0].0, ps[0].1), ps[1..]);
    }
  }

  lemma {:induction false} LastWinsKeys(m: map<Atom, Val>, ps: seq<(Atom, Val)>, k: Atom)
    ensures k in LastWins(m, ps) <==> k in m || exists i :: 0 <= i < |ps| && ps[i].0 == k
    ensures (forall j | 0 <= j < |ps| :: ps[j].0 != k) && k in m ==> k in LastWins(m, ps) && LastWins(m, ps)[k] == m[k]
    decreases |ps|
  {
    if ps != [] {
      var q := ps[1..];
      LastWinsKeys(m[ps[0].0 := ps[0].1], q, k);
      assert forall i | 1 <= i < |ps| :: ps[i] == q[i - 1];
      assert forall i | 0 <= i < |q| :: q[i] == ps[i + 1];
    }
  }

  lemma {:induction false} LastWinsAt(m: map<Atom, Val>, ps: seq<(Atom, Val)>, i: nat)
    requires i < |ps| && forall j | i < j < |ps| :: ps[j].0 != ps[i].0
    ensures ps[i].0 in LastWins(m, ps) && LastWins(m, ps)[ps[i].0] == ps[i].1
    decreases |ps|
  {
    var q, n := ps[1..], m[ps[0].0 := ps[0].1];
    assert forall j | 0 <= j < |q| :: q[j] == ps[j + 1];
    if i == 0 {
      LastWinsKeys(n, q, ps[0].0);
    } else {
      LastWinsAt(n, q, i - 1);
    }
  }

  lemma {:induction false} LastWinsMeaning(m: map<Atom, Val>, ps: seq<(Atom, Val)>, k: Atom)
    ensures k in LastWins(m, ps) <==> k in m || exists i :: 0 <= i < |ps| && ps[i].0 == k
    ensures forall i | 0 <= i < |ps| && ps[i].0 == k && (forall j | i < j < |ps| :: ps[j].0 != k) ::
              k in LastWins(m, ps) && LastWins(m, ps)[k] == ps[i].1
    ensures (forall j | 0 <= j < |ps| :: ps[j].0 != k) && k in m ==> k in LastWins(m, ps) && LastWins(m, ps)[k] == m[k]
  {
    LastWinsKeys(m, ps, k);
    forall i | 0 <= i < |ps| && ps[i].0 == k && (forall j | i < j < |ps| :: ps[j].0 != k)
      ensures k in LastWins(m, ps) && LastWins(m, ps)[k] == ps[i].1
    {
      LastWinsAt(m, ps, i);
    }
  }

  /** A map is decoded from empty, whatever the target held; of several entries with one key the last one wins. */
  lemma DecodedMapIsLastWins(k: Kind, u: Ty, target: Val, items: seq<M.Item>)
    requires HasType(Map(k, u), target)
    ensures
      var r := Decode(Map(k, u), target, items);
      if M.Inner(items).None? || DecodeEntries(k, u, M.Inner(items).value).None? then r == None
      else
        r.Some? && r.value.1 == items[1..] && Sorted(r.value.0.entries) &&
        AsMap(r.value.0.entries) == LastWins(map[], DecodeEntries(k, u, M.Inner(items).value).value)
  {
    if M.Inner(items).Some? && DecodeEntries(k, u, M.Inner(items).value).Some? {
      PutAllIsLastWins([], DecodeEntries(k, u, M.Inner(items).value).value);
    }
  }

  // ---------------------------------------------------------------- the round trip

  /** No text anywhere in the value holds a NUL. */
  predicate NulFree(v: Val)
    decreases v, 0
  {
    match v
    case Single(a) => M.AtomNulFree(a)
    case Items(vs) => NulFreeEach(vs)
    case Entries(es) => NulFreeEntries(es)
    case Slots(vs) => NulFreeSlots(vs)
    case Wrapped(w) => NulFree(w)
    case Held(w) => NulFree(w)
  }

  predicate NulFreeEach(vs: seq<Val>)
    decreases vs, 1
  {
    vs == [] || (NulFree(vs[0]) && NulFreeEach(vs[1..]))
  }

  predicate NulFreeEntries(es: seq<(Atom, Val)>)
    decreases es, 1
  {
    es == [] || (var x := es[0]; assert x.1 < x; M.AtomNulFree(x.0) && NulFree(x.1) && NulFreeEntries(es[1..]))
  }

  predicate NulFreeSlots(vs: Vals)
    decreases vs
  {
    NulFree(vs.val) && (vs.Then? ==> NulFreeSlots(vs.rest))
  }

  /** What decoding v into an object that holds `target` leaves there: vectors are appended to, the rest replaced. */
  function Absorb(ty: Ty, target: Val, v: Val): (r: Val)
    requires HasType(ty, target) && HasType(ty, v)
    ensures HasType(ty, r)
    decreases ty
  {
    match ty
    case Scalar(_) => v
    case Vec(_) => Items(target.items + v.items)
    case Map(_, _) => v
    case Tuple(fs) => Slots(AbsorbFields(fs, target.slots, v.slots))
    case Struct(t) => Wrapped(Absorb(t, target.value, v.value))
    case Variant(t) => Held(Absorb(t, target.held, v.held))
  }

  function AbsorbFields(fs: Fields, targets: Vals, vs: Vals): (r: Vals)
    requires HaveTypes(fs, targets) && HaveTypes(fs, vs)
    ensures HaveTypes(fs, r)
    decreases fs
  {
    match fs
    case Last(t) => End(Absorb(t, targets.val, vs.val))
    case More(t, r) => Then(Absorb(t, targets.val, vs.val), AbsorbFields(r, targets.rest, vs.rest))
  }

  lemma {:induction false} AbsorbDefault(ty: Ty, v: Val)
    requires HasType(ty, v)
    ensures Absorb(ty, Default(ty), v) == v
    decreases ty
  {
    match ty
    case Scalar(_) =>
    case Vec(_) => assert [] + v.items == v.items;
    case Map(_, _) =>
    case Tuple(fs) => AbsorbDefaults(fs, v.slots);
    case Struct(t) => AbsorbDefault(t, v.value);
    case Variant(t) => AbsorbDefault(t, v.held);
  }

  lemma {:induction false} AbsorbDefaults(fs: Fields, vs: Vals)
    requires HaveTypes(fs, vs)
    ensures AbsorbFields(fs, Defaults(fs), vs) == vs
    decreases fs
  {
    AbsorbDefault(fs.ty, vs.val);
    if fs.More? { AbsorbDefaults(fs.rest, vs.rest); }
  }

  /**
   Decoding undoes encoding, in front of anything and into any target: vectors nested in the target's tuples,
   structs and variants keep what they held and get the decoded elements behind it.
   */
  lemma {:induction false} DecodeEncoded(ty: Ty, target: Val, v: Val, rest: seq<M.Item>)
    requires HasType(ty, target) && HasType(ty, v) && NulFree(v)
    ensures Decode(ty, target, Encode(ty, v) + rest) == Some((Absorb(ty, target, v), rest))
    decreases ty, 0
  {
    var items := Encode(ty, v) + rest;
    assert !ty.Tuple? ==> items[1..] == rest;
    match ty
    case Scalar(k) => M.WireRoundTrip(k, v.atom);
    case Vec(e) => DecodeEncodedEach(e, v.items);
    case Map(k, u) =>
      DecodeEncodedEntries(k, u, v.entries);
      PutAllSorted(k, [], v.entries);
      assert [] + v.entries == v.entries;
    case Tuple(fs) => DecodeEncodedFields(fs, target.slots, v.slots, rest);
    case Struct(t) =>
      DecodeEncoded(t, target.value, v.value, []);
      assert Encode(t, v.value) + [] == Encode(t, v.value);
    case Variant(t) =>
      DecodeEncoded(t, target.held, v.held, []);
      assert Encode(t, v.held) + [] == Encode(t, v.held);
  }

  lemma {:induction false} DecodeEncodedFields(fs: Fields, targets: Vals, vs: Vals, rest: seq<M.Item>)
    requires HaveTypes(fs, targets) && HaveTypes(fs, vs) && NulFreeSlots(vs)
    ensures DecodeFields(fs, targets, EncodeFields(fs, vs) + rest) == Some((AbsorbFields(fs, targets, vs), rest))
    decreases fs, 0
  {
    match fs
    case Last(t) => DecodeEncoded(t, targets.val, vs.val, rest);
    case More(t, r) =>
      var a, b := Encode(t, vs.val), EncodeFields(r, vs.rest);
      assert a + b + rest == a + (b + rest);
      DecodeEncoded(t, targets.val, vs.val, b + rest);
      DecodeEncodedFields(r, targets.rest, vs.rest, rest);
  }

  lemma {:induction false} EncodeNonEmpty(ty: Ty, v: Val)
    requires HasType(ty, v)
    ensures Encode(ty, v) != []
    decreases ty
  {
    if ty.Tuple? { FieldsNonEmpty(ty.fields, v.slots); }
  }

  lemma {:induction false} FieldsNonEmpty(fs: Fields, vs: Vals)
    requires HaveTypes(fs, vs)
    ensures EncodeFields(fs, vs) != []
    decreases fs
  {
    EncodeNonEmpty(fs.ty, vs.val);
  }

  lemma {:induction false} DecodeEncodedEach(e: Ty, vs: seq<Val>)
    requires (forall i | 0 <= i < |vs| :: HasType(e, vs[i])) && NulFreeEach(vs)
    ensures DecodeEach(e, EncodeEach(e, vs)) == Some(vs)
    decreases e, |vs| + 1
  {
    if vs != [] {
      EncodeNonEmpty(e, vs[0]);
      DecodeEncoded(e, Default(e), vs[0], EncodeEach(e, vs[1..]));
      AbsorbDefault(e, vs[0]);
      DecodeEncodedEach(e, vs[1..]);
      assert vs == [vs[0]] + vs[1..];
    }
  }

  lemma {:induction false} DecodeEncodedPair(k: Kind, u: Ty, x: (Atom, Val))
    requires OfKind(k, x.0) && HasType(u, x.1) && M.AtomNulFree(x.0) && NulFree(x.1)
    ensures DecodePair(k, u, EncodeEntry(k, u, x)) == Some(x)
    decreases u, 1
  {
    M.WireRoundTrip(k, x.0);
    var w := Encode(u, x.1);
    assert EncodeEntry(k, u, x)[1..] == w == w + [];
    DecodeEncoded(u, Default(u), x.1, []);
    AbsorbDefault(u, x.1);
  }

  lemma {:induction false} DecodeEncodedEntries(k: Kind, u: Ty, es: seq<(Atom, Val)>)
    requires (forall i | 0 <= i < |es| :: OfKind(k, es[i].0) && HasType(u, es[i].1)) && NulFreeEntries(es)
    ensures DecodeEntries(k, u, EncodeEntries(k, u, es)) == Some(es)
    decreases u, |es| + 2
  {
    if es != [] {
      var x, q := es[0], es[1..];
      DecodeEncodedPair(k, u, x);
      DecodeEncodedEntries(k, u, q);
      DecodeEntriesStep(k, u, EncodeEntry(k, u, x), EncodeEntries(k, u, q), x, q);
      assert es == [x] + q;
    }
  }

  lemma DecodeEntriesStep(k: Kind, u: Ty, sub: seq<M.Item>, tail: seq<M.Item>, p: (Atom, Val), ps: seq<(Atom, Val)>)
    requires DecodePair(k, u, sub) == Some(p) && DecodeEntries(k, u, tail) == Some(ps)
    ensures DecodeEntries(k, u, [M.DictEntry(sub)] + tail) == Some([p] + ps)
  {
    assert ([M.DictEntry(sub)] + tail)[1..] == tail;
  }

  /** Inserting the entries of a std::map in iteration order rebuilds it. */
  lemma {:induction false} PutAllSorted(k: Kind, done: seq<(Atom, Val)>, es: seq<(Atom, Val)>)
    requires Sorted(done + es) && KeysOf(k, done) && KeysOf(k, es)
    ensures PutAll(done, es) == done + es
    decreases |es|
  {
    if es == [] {
      assert done + es == done;
    } else {
      var all, d := done + es, done + [es[0]];
      forall i | 0 <= i < |done| ensures Less(done[i].0, es[0].0) {
        assert all[i] == done[i] && all[|done|] == es[0];
      }
      PutAppends(k, done, es[0].0, es[0].1);
      assert d + es[1..] == all;
      PutAllSorted(k, d, es[1..]);
    }
  }

  // What arrives never holds a NUL, so a value that does cannot come back.

  lemma {:induction false} DecodedNulFree(ty: Ty, target: Val, items: seq<M.Item>)
    requires HasType(ty, target) && NulFree(target)
    ensures var r := Decode(ty, target, items); r.Some? ==> NulFree(r.value.0)
    decreases ty, 0
  {
    match ty
    case Scalar(k) =>
    case Tuple(fs) => DecodedFieldsNulFree(fs, target.slots, items);
    case Vec(e) =>
      if M.Inner(items).Some? {
        DecodedEachNulFree(e, M.Inner(items).value);
        var vs := DecodeEach(e, M.Inner(items).value);
        if vs.Some? { NulFreeConcat(target.items, vs.value); }
      }
    case Map(k, u) =>
      if M.Inner(items).Some? {
        DecodedEntriesNulFree(k, u, M.Inner(items).value);
        var ps := DecodeEntries(k, u, M.Inner(items).value);
        if ps.Some? { PutAllNulFree([], ps.value); }
      }
    case Struct(t) =>
      if M.Inner(items).Some? { DecodedNulFree(t, target.value, M.Inner(items).value); }
    case Variant(t) =>
      if M.Inner(items).Some? { DecodedNulFree(t, target.held, M.Inner(items).value); }
  }

  lemma NulFreeConcat(vs: seq<Val>, ws: seq<Val>)
    requires NulFreeEach(vs) && NulFreeEach(ws)
    ensures NulFreeEach(vs + ws)
  {
    if vs == [] {
      assert vs + ws == ws;
    } else {
      assert (vs + ws)[1..] == vs[1..] + ws;
      NulFreeConcat(vs[1..], ws);
    }
  }

  lemma {:induction false} PutNulFree(es: seq<(Atom, Val)>, k: Atom, v: Val)
    requires NulFreeEntries(es) && M.AtomNulFree(k) && NulFree(v)
    ensures NulFreeEntries(Put(es, k, v))
    decreases |es|
  {
    var r := Put(es, k, v);
    if es == [] {
    } else if es[0].0 == k {
      assert r[1..] == es[1..];
    } else if Less(k, es[0].0) {
      assert r[1..] == es;
    } else {
      PutNulFree(es[1..], k, v);
      assert r[1..] == Put(es[1..], k, v);
    }
  }

  lemma {:induction false} PutAllNulFree(es: seq<(Atom, Val)>, ps: seq<(Atom, Val)>)
    requires NulFreeEntries(es) && NulFreeEntries(ps)
    ensures NulFreeEntries(PutAll(es, ps))
    decreases |ps|
  {
    if ps != [] {
      PutNulFree(es, ps[0].0, ps[0].1);
      PutAllNulFree(Put(es, ps[0].0, ps[0].1), ps[1..]);
    }
  }

  lemma {:induction false} DefaultNulFree(ty: Ty)
    ensures NulFree(Default(ty))
    decreases ty
  {
    match ty
    case Scalar(_) =>
    case Vec(_) =>
    case Map(_, _) =>
    case Tuple(fs) => DefaultsNulFree(fs);
    case Struct(t) => DefaultNulFree(t);
    case Variant(t) => DefaultNulFree(t);
  }

  lemma {:induction false} DefaultsNulFree(fs: Fields)
    ensures NulFreeSlots(Defaults(fs))
    decreases fs
  {
    DefaultNulFree(fs.ty);
    if fs.More? { DefaultsNulFree(fs.rest); }
  }

  lemma {:induction false} DecodedEachNulFree(e: Ty, items: seq<M.Item>)
    ensures var r := DecodeEach(e, items); r.Some? ==> NulFreeEach(r.value)
    decreases e, |items| + 1
  {
    if items != [] {
      DefaultNulFree(e);
      DecodedNulFree(e, Default(e), items);
      match Decode(e, Default(e), items)
      case None =>
      case Some((v, rest)) =>
        DecodedEachNulFree(e, rest);
        match DecodeEach(e, rest)
        case None =>
        case Some(vs) => assert ([v] + vs)[1..] == vs;
    }
  }

  lemma {:induction false} DecodedEntriesNulFree(k: Kind, u: Ty, items: seq<M.Item>)
    ensures var r := DecodeEntries(k, u, items); r.Some? ==> NulFreeEntries(r.value)
    decreases u, |items| + 2
  {
    if items != [] && M.Inner(items).Some? {
      var sub := M.Inner(items).value;
      if sub != [] {
        DefaultNulFree(u);
        DecodedNulFree(u, Default(u), sub[1..]);
        DecodedEntriesNulFree(k, u, items[1..]);
        match DecodePair(k, u, sub)
        case None =>
        case Some(p) =>
          match DecodeEntries(k, u, items[1..])
          case None =>
          case Some(ps) => assert ([p] + ps)[1..] == ps;
      }
    }
  }

  lemma {:induction false} DecodedFieldsNulFree(fs: Fields, targets: Vals, items: seq<M.Item>)
    requires HaveTypes(fs, targets) && NulFreeSlots(targets)
    ensures var r := DecodeFields(fs, targets, items); r.Some? ==> NulFreeSlots(r.value.0)
    decreases fs, 0
  {
    DecodedNulFree(fs.ty, targets.val, items);
    var r := Decode(fs.ty, targets.val, items);
    if fs.More? && r.Some? {
      DecodedFieldsNulFree(fs.rest, targets.rest, r.value.1);
    }
  }

  /**
   For every type and value: encoding it in front of anything and decoding into a fresh object gives the value back
   and stops exactly where it ended -- if and only if no string in it holds a NUL.
   */
  lemma RoundTripExact(ty: Ty, v: Val, rest: seq<M.Item>)
    requires HasType(ty, v)
    ensures Decode(ty, Default(ty), Encode(ty, v) + rest) == Some((v, rest)) <==> NulFree(v)
  {
    if NulFree(v) {
      DecodeEncoded(ty, Default(ty), v, rest);
      AbsorbDefault(ty, v);
    } else {
      DefaultNulFree(ty);
      DecodedNulFree(ty, Default(ty), Encode(ty, v) + rest);
    }
  }

  /** A string with a NUL inside comes back cut. */
  lemma NulCutsString()
    ensures var v := Single(Text(['a', NUL, 'b']));
            && HasType(Scalar(Str), v) && !NulFree(v)
            && Decode(Scalar(Str), Default(Scalar(Str)), Encode(Scalar(Str), v)) == Some((Single(Text("a")), []))
  {
    var s := ['a', NUL, 'b'];
    assert s[1..] == [NUL, 'b'];
    assert M.CString(s[1..]) == "";
    assert M.CString(s) == "a";
  }

  // ---------------------------------------------------------------- what is written spells its signature

  function SigOf(x: M.Item): string
    decreases x, 0
  {
    match x
    case Basic(p) => [p.code]
    case Array(sig, _) => "a" + sig
    case Struct(xs) => "(" + SigOfAll(xs) + ")"
    case Variant(_, _) => "v"
    case DictEntry(xs) => "{" + SigOfAll(xs) + "}"
  }

  function SigOfAll(xs: seq<M.Item>): string
    decreases xs, 1
  {
    if xs == [] then "" else SigOf(xs[0]) + SigOfAll(xs[1..])
  }

  lemma SigOfAllConcat(xs: seq<M.Item>, ys: seq<M.Item>)
    ensures SigOfAll(xs + ys) == SigOfAll(xs) + SigOfAll(ys)
  {
    if xs == [] {
      assert xs + ys == ys;
    } else {
      assert (xs + ys)[1..] == xs[1..] + ys;
      SigOfAllConcat(xs[1..], ys);
    }
  }

  lemma SigOfOne(x: M.Item)
    ensures SigOfAll([x]) == SigOf(x)
  {
    assert [x][1..] == [];
  }

  /** The items an encoding appends spell exactly the signature TypeMapper gives the type, one per complete type. */
  lemma {:induction false} EncodingSpellsSignature(ty: Ty, v: Val)
    requires HasType(ty, v)
    ensures SigOfAll(Encode(ty, v)) == Signature(ty) && |Encode(ty, v)| == Width(ty)
    decreases ty
  {
    if !ty.Tuple? {
      SigOfOne(Encode(ty, v)[0]);
      assert Encode(ty, v) == [Encode(ty, v)[0]];
    }
    match ty
    case Scalar(_) =>
    case Vec(_) =>
    case Map(_, _) =>
    case Tuple(fs) => FieldsSpellSignature(fs, v.slots);
    case Struct(t) => EncodingSpellsSignature(t, v.value);
    case Variant(_) =>
  }

  lemma {:induction false} FieldsSpellSignature(fs: Fields, vs: Vals)
    requires HaveTypes(fs, vs)
    ensures SigOfAll(EncodeFields(fs, vs)) == FieldsSignature(fs) && |EncodeFields(fs, vs)| == FieldsWidth(fs)
    decreases fs
  {
    EncodingSpellsSignature(fs.ty, vs.val);
    if fs.More? {
      FieldsSpellSignature(fs.rest, vs.rest);
      SigOfAllConcat(Encode(fs.ty, vs.val), EncodeFields(fs.rest, vs.rest));
    }
  }

  /**
   The D-Bus Specification's rules for containers: an array holds items of its element signature, a variant exactly
   one item of its signature, a struct at least one, a dict entry a basic key and one value.
   */
  predicate Conforms(x: M.Item)
    decreases x, 0
  {
    match x
    case Basic(_) => true
    case Array(sig, xs) => (forall i | 0 <= i < |xs| :: SigOf(xs[i]) == sig) && ConformAll(xs)
    case Struct(xs) => xs != [] && ConformAll(xs)
    case Variant(sig, xs) => |xs| == 1 && SigOf(xs[0]) == sig && ConformAll(xs)
    case DictEntry(xs) => |xs| == 2 && xs[0].Basic? && ConformAll(xs)
  }

  predicate ConformAll(xs: seq<M.Item>)
    decreases xs, 1
  {
    xs == [] || (Conforms(xs[0]) && ConformAll(xs[1..]))
  }

  lemma ConformAllConcat(xs: seq<M.Item>, ys: seq<M.Item>)
    ensures ConformAll(xs + ys) <==> ConformAll(xs) && ConformAll(ys)
  {
    if xs == [] {
      assert xs + ys == ys;
    } else {
      assert (xs + ys)[1..] == xs[1..] + ys;
      ConformAllConcat(xs[1..], ys);
    }
  }

  lemma ConformOne(x: M.Item)
    ensures ConformAll([x]) <==> Conforms(x)
  {
    assert [x][1..] == [];
  }

  lemma {:induction false} EncodingConforms(ty: Ty, v: Val)
    requires HasType(ty, v) && WellFormed(ty)
    ensures ConformAll(Encode(ty, v))
    decreases ty, 0
  {
    if !ty.Tuple? { ConformOne(Encode(ty, v)[0]); }
    match ty
    case Scalar(_) =>
    case Vec(e) => EachConforms(e, v.items);
    case Map(k, u) => EntriesConform(k, u, v.entries);
    case Tuple(fs) => FieldsConform(fs, v.slots);
    case Struct(t) =>
      EncodingConforms(t, v.value);
      EncodeNonEmpty(t, v.value);
    case Variant(t) =>
      EncodingConforms(t, v.held);
      EncodingSpellsSignature(t, v.held);
      assert Encode(t, v.held) == [Encode(t, v.held)[0]];
      SigOfOne(Encode(t, v.held)[0]);
  }

  lemma {:induction false} EachConforms(e: Ty, vs: seq<Val>)
    requires (forall i | 0 <= i < |vs| :: HasType(e, vs[i])) && WellFormed(e) && Width(e) == 1
    ensures ConformAll(EncodeEach(e, vs))
    ensures forall i | 0 <= i < |EncodeEach(e, vs)| :: SigOf(EncodeEach(e, vs)[i]) == Signature(e)
    decreases e, |vs| + 1
  {
    if vs != [] {
      var a := Encode(e, vs[0]);
      EncodingConforms(e, vs[0]);
      EncodingSpellsSignature(e, vs[0]);
      assert a == [a[0]];
      SigOfOne(a[0]);
      EachConforms(e, vs[1..]);
      ConformAllConcat(a, EncodeEach(e, vs[1..]));
    }
  }

  lemma {:induction false} EntryConforms(k: Kind, u: Ty, x: (Atom, Val))
    requires OfKind(k, x.0) && HasType(u, x.1) && WellFormed(u) && Width(u) == 1
    ensures Conforms(M.DictEntry(EncodeEntry(k, u, x)))
    ensures SigOf(M.DictEntry(EncodeEntry(k, u, x))) == PairSignature(k, u)
    decreases u, 1
  {
    var w := EncodeEntry(k, u, x);
    EncodingConforms(u, x.1);
    EncodingSpellsSignature(u, x.1);
    assert w[1..] == Encode(u, x.1);
    assert SigOfAll(w) == [Code(k)] + Signature(u);
  }

  lemma {:induction false} EntriesConform(k: Kind, u: Ty, es: seq<(Atom, Val)>)
    requires forall i | 0 <= i < |es| :: OfKind(k, es[i].0) && HasType(u, es[i].1)
    requires WellFormed(u) && Width(u) == 1
    ensures ConformAll(EncodeEntries(k, u, es))
    ensures forall i | 0 <= i < |EncodeEntries(k, u, es)| :: SigOf(EncodeEntries(k, u, es)[i]) == PairSignature(k, u)
    decreases u, |es| + 2
  {
    if es != [] {
      var d, tail := M.DictEntry(EncodeEntry(k, u, es[0])), EncodeEntries(k, u, es[1..]);
      EntryConforms(k, u, es[0]);
      EntriesConform(k, u, es[1..]);
      assert ([d] + tail)[1..] == tail;
    }
  }

  lemma {:induction false} FieldsConform(fs: Fields, vs: Vals)
    requires HaveTypes(fs, vs) && WellFormedFields(fs)
    ensures ConformAll(EncodeFields(fs, vs))
    decreases fs, 0
  {
    EncodingConforms(fs.ty, vs.val);
    if fs.More? {
      FieldsConform(fs.rest, vs.rest);
      ConformAllConcat(Encode(fs.ty, vs.val), EncodeFields(fs.rest, vs.rest));
    }
  }

  /** A value with one element in every container. */
  function Full(ty: Ty): (v: Val)
    ensures HasType(ty, v)
    decreases ty
  {
    match ty
    case Scalar(_) => Default(ty)
    case Vec(e) => Items([Full(e)])
    case Map(k, u) => Entries([(Default(Scalar(k)).atom, Full(u))])
    case Tuple(fs) => Slots(FullFields(fs))
    case Struct(t) => Wrapped(Full(t))
    case Variant(t) => Held(Full(t))
  }

  function FullFields(fs: Fields): (vs: Vals)
    ensures HaveTypes(fs, vs)
    decreases fs
  {
    match fs
    case Last(t) => End(Full(t))
    case More(t, r) => Then(Full(t), FullFields(r))
  }

  lemma {:induction false} FullNeedsWellFormed(ty: Ty)
    requires ConformAll(Encode(ty, Full(ty)))
    ensures WellFormed(ty)
    decreases ty
  {
    if !ty.Tuple? { ConformOne(Encode(ty, Full(ty))[0]); }
    match ty
    case Scalar(_) =>
    case Vec(e) =>
      var xs := Encode(e, Full(e));
      assert [Full(e)][1..] == [];
      assert EncodeEach(e, [Full(e)]) == xs + [] == xs;
      EncodingSpellsSignature(e, Full(e));
      SameSigMeansOne(xs, Signature(e));
      FullNeedsWellFormed(e);
    case Map(k, u) =>
      var x := (Default(Scalar(k)).atom, Full(u));
      var w := EncodeEntry(k, u, x);
      assert [x][1..] == [];
      assert EncodeEntries(k, u, [x]) == [M.DictEntry(w)];
      ConformOne(M.DictEntry(w));
      assert w[1..] == Encode(u, Full(u));
      EncodingSpellsSignature(u, Full(u));
      FullNeedsWellFormed(u);
    case Tuple(fs) => FullFieldsNeedWellFormed(fs);
    case Struct(t) => FullNeedsWellFormed(t);
    case Variant(t) =>
      EncodingSpellsSignature(t, Full(t));
      FullNeedsWellFormed(t);
  }

  lemma LongerTogether(xs: seq<M.Item>)
    requires |xs| > 1
    ensures |SigOfAll(xs)| > |SigOf(xs[0])|
  {
    assert xs[1..][0] == xs[1];
    assert SigOfAll(xs) == SigOf(xs[0]) + (SigOf(xs[1]) + SigOfAll(xs[1..][1..]));
  }

  /** Items that each spell the whole of what they spell together: there is one. */
  lemma SameSigMeansOne(xs: seq<M.Item>, sig: string)
    requires xs != [] && SigOfAll(xs) == sig && forall i | 0 <= i < |xs| :: SigOf(xs[i]) == sig
    ensures |xs| == 1
  {
    if |xs| > 1 { LongerTogether(xs); }
  }

  lemma {:induction false} FullFieldsNeedWellFormed(fs: Fields)
    requires ConformAll(EncodeFields(fs, FullFields(fs)))
    ensures WellFormedFields(fs)
    decreases fs
  {
    if fs.More? {
      ConformAllConcat(Encode(fs.ty, Full(fs.ty)), EncodeFields(fs.rest, FullFields(fs.rest)));
      FullFieldsNeedWellFormed(fs.rest);
    }
    FullNeedsWellFormed(fs.ty);
  }

  /** Whatever value of the type is encoded, every container holds what the signature it was opened with says. */
  ghost predicate AlwaysConforms(ty: Ty) {
    forall v | HasType(ty, v) :: ConformAll(Encode(ty, v))
  }

  /** That is so exactly when no array element, dict value or variant payload is a bare tuple of several fields. */
  lemma ConformanceExact(ty: Ty)
    ensures AlwaysConforms(ty) <==> WellFormed(ty)
  {
    if WellFormed(ty) {
      forall v | HasType(ty, v) ensures ConformAll(Encode(ty, v)) {
        EncodingConforms(ty, v);
      }
    } else if AlwaysConforms(ty) {
      var v := Full(ty);
      assert HasType(ty, v);
      FullNeedsWellFormed(ty);
    }
  }

  // ---------------------------------------------------------------- parameter packs

  function PackSignature(pack: seq<(Ty, Val)>): string {
    if pack == [] then "" else Signature(pack[0].0) + PackSignature(pack[1..])
  }

  ghost predicate PackTyped(pack: seq<(Ty, Val)>) {
    forall i | 0 <= i < |pack| :: HasType(pack[i].0, pack[i].1)
  }

  function EncodePack(pack: seq<(Ty, Val)>): seq<M.Item>
    requires PackTyped(pack)
  {
    if pack == [] then [] else Encode(pack[0].0, pack[0].1) + EncodePack(pack[1..])
  }

  /** decode_message into parameters that hold the values given in `targets`. */
  function DecodePack(targets: seq<(Ty, Val)>, items: seq<M.Item>): (r: Option<(seq<Val>, seq<M.Item>)>)
    requires PackTyped(targets)
    ensures r.Some? ==> |r.value.0| == |targets|
    decreases |targets|
  {
    if targets == [] then Some(([], items))
    else
      match Decode(targets[0].0, targets[0].1, items)
      case None => None
      case Some((v, rest)) =>
        match DecodePack(targets[1..], rest)
        case None => None
        case Some((vs, q)) => Some(([v] + vs, q))
  }

  predicate FitsPack(targets: seq<(Ty, Val)>, items: seq<M.Item>)
    decreases |targets|
  {
    targets == [] ||
    var ty := targets[0].0;
    Fits(ty, items) && Width(ty) <= |items| && FitsPack(targets[1..], items[Width(ty)..])
  }

  /** decode_message succeeds exactly where the parameters fit one behind the other. */
  lemma {:induction false} PackDecodesExactly(targets: seq<(Ty, Val)>, items: seq<M.Item>)
    requires PackTyped(targets)
    ensures DecodePack(targets, items).Some? <==> FitsPack(targets, items)
    decreases |targets|
  {
    if targets != [] {
      var ty := targets[0].0;
      DecodesExactly(ty, targets[0].1, items);
      if Fits(ty, items) {
        PackDecodesExactly(targets[1..], items[Width(ty)..]);
      }
    }
  }

  /** An array of strings is no vector of integers. */
  lemma StringsAreNoIntegers()
    ensures var items := [M.Array("s", [M.Basic(M.RawPrim('s', Text("x")))])];
            Decode(Vec(Scalar(I32)), Items([]), items) == None
  {
    DecodesExactly(Vec(Scalar(I32)), Items([]), [M.Array("s", [M.Basic(M.RawPrim('s', Text("x")))])]);
  }

  /** encode_message then decode_message restores every parameter, and the body spells helper::signature(args...). */
  lemma {:induction false} PackRoundTrip(pack: seq<(Ty, Val)>, targets: seq<(Ty, Val)>, rest: seq<M.Item>)
    requires PackTyped(pack) && PackTyped(targets) && |targets| == |pack|
    requires forall i | 0 <= i < |pack| :: NulFree(pack[i].1) && targets[i] == (pack[i].0, Default(pack[i].0))
    ensures DecodePack(targets, EncodePack(pack) + rest) ==
            Some((seq(|pack|, i requires 0 <= i < |pack| => pack[i].1), rest))
    ensures SigOfAll(EncodePack(pack)) == PackSignature(pack)
    decreases |pack|
  {
    if pack == [] {
      assert EncodePack(pack) + rest == rest;
    } else {
      var a, b := Encode(pack[0].0, pack[0].1), EncodePack(pack[1..]);
      DecodeEncoded(pack[0].0, targets[0].1, pack[0].1, b + rest);
      AbsorbDefault(pack[0].0, pack[0].1);
      assert a + b + rest == a + (b + rest);
      PackRoundTrip(pack[1..], targets[1..], rest);
      var vs := seq(|pack|, i requires 0 <= i < |pack| => pack[i].1);
      var ws := seq(|pack[1..]|, i requires 0 <= i < |pack[1..]| => pack[1..][i].1);
      assert vs == [pack[0].1] + ws;
      EncodingSpellsSignature(pack[0].0, pack[0].1);
      SigOfAllConcat(a, b);
    }
  }
}
