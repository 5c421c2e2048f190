/**
 The C++ types that have a Codec, the values they hold, and the signatures TypeMapper gives them
 (include/core/dbus/helper/type_mapper.h, include/core/dbus/types/).
 */
module Types {
  import S = Signatures
  import opened Wrappers

  /** Types that map to one basic D-Bus type; Path and Sig are types::ObjectPath and types::Signature. */
  datatype Kind = Byte | Bool | I16 | U16 | I32 | U32 | I64 | U64 | Double | Float | Str | Path | Sig

  datatype Ty =
    | Scalar(kind: Kind)
    | Vec(elem: Ty)
    | Map(key: Kind, value: Ty)
    | Tuple(fields: Fields)
    | Struct(inner: Ty)
    | Variant(payload: Ty)

  /** The element types of a std::tuple, in the order CodecApply and StaticRecursiveSignature peel them off. */
  datatype Fields = Last(ty: Ty) | More(ty: Ty, rest: Fields)

  /** The value of a scalar; std::string may hold any characters, NUL included. */
  datatype Atom = Num(n: int) | Flag(b: bool) | Fp(x: real) | Text(s: string)

  datatype Val =
    | Single(atom: Atom)
    | Items(items: seq<Val>)
    | Entries(entries: seq<(Atom, Val)>)
    | Slots(slots: Vals)
    | Wrapped(value: Val)
    | Held(held: Val)

  datatype Vals = End(val: Val) | Then(val: Val, rest: Vals)

  const NUL: char := '\0'

  predicate OfKind(k: Kind, a: Atom) {
    match k
    case Byte => a.Num? && -0x80 <= a.n < 0x80
    case Bool => a.Flag?
    case I16 => a.Num? && -0x8000 <= a.n < 0x8000
    case U16 => a.Num? && 0 <= a.n < 0x1_0000
    case I32 => a.Num? && -0x8000_0000 <= a.n < 0x8000_0000
    case U32 => a.Num? && 0 <= a.n < 0x1_0000_0000
    case I64 => a.Num? && -0x8000_0000_0000_0000 <= a.n < 0x8000_0000_0000_0000
    case U64 => a.Num? && 0 <= a.n < 0x1_0000_0000_0000_0000
    case Double => a.Fp?
    case Float => a.Fp?
    case Str => a.Text?
    case Path => a.Text?
    case Sig => a.Text?
  }

  // ---------------------------------------------------------------- the order of std::map keys

  predicate LexLess(s: string, t: string)
    decreases |s|
  {
    t != "" && (s == "" || s[0] < t[0] || (s[0] == t[0] && LexLess(s[1..], t[1..])))
  }

  predicate Less(a: Atom, b: Atom) {
    match (a, b)
    case (Num(m), Num(n)) => m < n
    case (Flag(p), Flag(q)) => !p && q
    case (Fp(x), Fp(y)) => x < y
    case (Text(s), Text(t)) => LexLess(s, t)
    case _ => false
  }

  lemma {:induction false} LexIrreflexive(s: string)
    ensures !LexLess(s, s)
    decreases |s|
  {
    if s != "" { LexIrreflexive(s[1..]); }
  }

  lemma {:induction false} LexTransitive(s: string, t: string, u: string)
    requires LexLess(s, t) && LexLess(t, u)
    ensures LexLess(s, u)
    decreases |s|
  {
    if s != "" && s[0] == t[0] && t[0] == u[0] { LexTransitive(s[1..], t[1..], u[1..]); }
  }

  lemma {:induction false} LexTotal(s: string, t: string)
    ensures s == t || LexLess(s, t) || LexLess(t, s)
    decreases |s|
  {
    if s != "" && t != "" && s[0] == t[0] {
      LexTotal(s[1..], t[1..]);
      assert s == [s[0]] + s[1..] && t == [t[0]] + t[1..];
    }
  }

  /** On the values of one kind, Less is a strict total order, as std::map requires of its comparator. */
  lemma LessIsStrictOrder(k: Kind, a: Atom, b: Atom, c: Atom)
    requires OfKind(k, a) && OfKind(k, b) && OfKind(k, c)
    ensures !Less(a, a)
    ensures Less(a, b) && Less(b, c) ==> Less(a, c)
    ensures a == b || Less(a, b) || Less(b, a)
  {
    if a.Text? {
      LexIrreflexive(a.s);
      LexTotal(a.s, b.s);
      if Less(a, b) && Less(b, c) { LexTransitive(a.s, b.s, c.s); }
    }
  }

  /** The first place where two texts differ, if there is one, decides; else the shorter text is less. */
  lemma {:induction false} LexMeaning(s: string, t: string)
    ensures LexLess(s, t) <==>
            (|s| < |t| && s == t[..|s|]) || exists i :: 0 <= i < |s| && i < |t| && s[..i] == t[..i] && s[i] < t[i]
    decreases |s|
  {
    if s != "" && t != "" {
      LexMeaning(s[1..], t[1..]);
      if LexLess(s, t) && s[0] == t[0] {
        if |s| < |t| && s[1..] == t[1..][..|s| - 1] {
          assert s == [s[0]] + s[1..] && t[..|s|] == [t[0]] + t[1..][..|s| - 1];
        } else {
          var i :| 0 <= i < |s[1..]| && i < |t[1..]| && s[1..][..i] == t[1..][..i] && s[1..][i] < t[1..][i];
          assert s[..i + 1] == [s[0]] + s[1..][..i] && t[..i + 1] == [t[0]] + t[1..][..i];
        }
      }
      if i :| 0 <= i < |s| && i < |t| && s[..i] == t[..i] && s[i] < t[i] {
        if i > 0 {
          assert s[0] == s[..i][0] && t[0] == t[..i][0];
          assert s[1..][..i - 1] == s[..i][1..] && t[1..][..i - 1] == t[..i][1..];
          assert s[1..][i - 1] < t[1..][i - 1];
        }
      }
      if |s| < |t| && s == t[..|s|] {
        assert s[0] == t[..|s|][0] && s[1..] == t[..|s|][1..] == t[1..][..|s| - 1];
      }
    } else if s != "" {
      assert t == "";
    } else if t != "" {
      assert s == t[..0];
    }
  }

  /** Keys of a map in the order in which they are written: numbers rise, false comes before true, texts are in
      lexicographic order. */
  lemma KeysRise(k: Kind, es: seq<(Atom, Val)>, i: nat, j: nat)
    requires Sorted(es) && KeysOf(k, es) && i < j < |es|
    ensures match (es[i].0, es[j].0)
            case (Num(m), Num(n)) => m < n
            case (Flag(p), Flag(q)) => !p && q
            case (Fp(x), Fp(y)) => x < y
            case (Text(s), Text(t)) =>
              (|s| < |t| && s == t[..|s|]) || exists n :: 0 <= n < |s| && n < |t| && s[..n] == t[..n] && s[n] < t[n]
            case _ => false
  {
    if es[i].0.Text? && es[j].0.Text? {
      LexMeaning(es[i].0.s, es[j].0.s);
    }
  }

  ghost predicate Sorted(es: seq<(Atom, Val)>) {
    forall i, j | 0 <= i < j < |es| :: Less(es[i].0, es[j].0)
  }

  /** find-then-overwrite-or-insert on a std::map: an equal key gets the new value, else the entry goes in key order. */
  function Put(es: seq<(Atom, Val)>, k: Atom, v: Val): seq<(Atom, Val)> {
    if es == [] then [(k, v)]
    else if es[0].0 == k then [(k, v)] + es[1..]
    else if Less(k, es[0].0) then [(k, v)] + es
    else [es[0]] + Put(es[1..], k, v)
  }

  function AsMap(es: seq<(Atom, Val)>): map<Atom, Val> {
    if es == [] then map[] else AsMap(es[1..])[es[0].0 := es[0].1]
  }

  ghost predicate KeysOf(k: Kind, es: seq<(Atom, Val)>) {
    forall i | 0 <= i < |es| :: OfKind(k, es[i].0)
  }

  lemma {:induction false} PutMembers(es: seq<(Atom, Val)>, k: Atom, v: Val, i: nat)
    requires i < |Put(es, k, v)|
    ensures Put(es, k, v)[i] == (k, v) || (i < |es| && Put(es, k, v)[i] == es[i]) ||
            (i > 0 && i - 1 < |es| && Put(es, k, v)[i] == es[i - 1])
    decreases |es|
  {
    if es != [] && es[0].0 != k && !Less(k, es[0].0) && i > 0 {
      PutMembers(es[1..], k, v, i - 1);
    }
  }

  /** Put keeps the keys strictly increasing. */
  lemma {:induction false} PutSorted(kind: Kind, es: seq<(Atom, Val)>, k: Atom, v: Val)
    requires Sorted(es) && KeysOf(kind, es) && OfKind(kind, k)
    ensures Sorted(Put(es, k, v)) && KeysOf(kind, Put(es, k, v))
    decreases |es|
  {
    var r := Put(es, k, v);
    forall i | 0 <= i < |r| ensures OfKind(kind, r[i].0) {
      PutMembers(es, k, v, i);
    }
    if es == [] || es[0].0 == k {
    } else if Less(k, es[0].0) {
      forall j | 0 <= j < |es| ensures Less(k, es[j].0) {
        LessIsStrictOrder(kind, k, es[0].0, es[j].0);
      }
    } else {
      PutSorted(kind, es[1..], k, v);
      LessIsStrictOrder(kind, k, es[0].0, k);
      forall j | 1 <= j < |r| ensures Less(r[0].0, r[j].0) {
        PutMembers(es[1..], k, v, j - 1);
      }
    }
  }

  /** Put changes the finite map in one place, whatever was there. */
  lemma {:induction false} PutIsUpdate(es: seq<(Atom, Val)>, k: Atom, v: Val)
    ensures AsMap(Put(es, k, v)) == AsMap(es)[k := v]
    decreases |es|
  {
    var r := Put(es, k, v);
    if es == [] {
    } else if es[0].0 == k {
      assert r[1..] == es[1..];
    } else if Less(k, es[0].0) {
      assert r[1..] == es;
    } else {
      PutIsUpdate(es[1..], k, v);
      assert r[1..] == Put(es[1..], k, v);
    }
  }

  /** Putting a key above all others appends it. */
  lemma {:induction false} PutAppends(kind: Kind, es: seq<(Atom, Val)>, k: Atom, v: Val)
    requires KeysOf(kind, es) && OfKind(kind, k)
    requires forall i | 0 <= i < |es| :: Less(es[i].0, k)
    ensures Put(es, k, v) == es + [(k, v)]
    decreases |es|
  {
    if es != [] {
      LessIsStrictOrder(kind, es[0].0, k, es[0].0);
      PutAppends(kind, es[1..], k, v);
    }
  }

  // ---------------------------------------------------------------- typing

  ghost predicate HasType(ty: Ty, v: Val)
    decreases ty
  {
    match ty
    case Scalar(k) => v.Single? && OfKind(k, v.atom)
    case Vec(e) => v.Items? && forall i | 0 <= i < |v.items| :: HasType(e, v.items[i])
    case Map(k, u) =>
      v.Entries? && Sorted(v.entries) && KeysOf(k, v.entries) &&
      forall i | 0 <= i < |v.entries| :: HasType(u, v.entries[i].1)
    case Tuple(fs) => v.Slots? && HaveTypes(fs, v.slots)
    case Struct(t) => v.Wrapped? && HasType(t, v.value)
    case Variant(t) => v.Held? && HasType(t, v.held)
  }

  ghost predicate HaveTypes(fs: Fields, vs: Vals)
    decreases fs
  {
    match (fs, vs)
    case (Last(t), End(v)) => HasType(t, v)
    case (More(t, r), Then(v, w)) => HasType(t, v) && HaveTypes(r, w)
    case _ => false
  }

  /** A freshly declared `T value;` (scalars are overwritten before they are read). */
  function Default(ty: Ty): (v: Val)
    ensures HasType(ty, v)
    decreases ty
  {
    match ty
    case Scalar(k) =>
      Single(match k
             case Bool => Flag(false)
             case Double => Fp(0.0)
             case Float => Fp(0.0)
             case Str => Text("")
             case Path => Text("/")
             case Sig => Text("")
             case _ => Num(0))
    case Vec(_) => Items([])
    case Map(_, _) => Entries([])
    case Tuple(fs) => Slots(Defaults(fs))
    case Struct(t) => Wrapped(Default(t))
    case Variant(t) => Held(Default(t))
  }

  function Defaults(fs: Fields): (vs: Vals)
    ensures HaveTypes(fs, vs)
    decreases fs
  {
    match fs
    case Last(t) => End(Default(t))
    case More(t, r) => Then(Default(t), Defaults(r))
  }

  // ---------------------------------------------------------------- signatures

  function Code(k: Kind): char {
    match k
    case Byte => 'y'
    case Bool => 'b'
    case I16 => 'n'
    case U16 => 'q'
    case I32 => 'i'
    case U32 => 'u'
    case I64 => 'x'
    case U64 => 't'
    case Double => 'd'
    case Float => 'd'
    case Str => 's'
    case Path => 'o'
    case Sig => 'g'
  }

  /** TypeMapper<T>::signature(). */
  function Signature(ty: Ty): (s: string)
    ensures s != ""
    decreases ty, 0
  {
    match ty
    case Scalar(k) => [Code(k)]
    case Vec(e) => "a" + Signature(e)
    case Map(k, u) => "a" + PairSignature(k, u)
    case Tuple(fs) => FieldsSignature(fs)
    case Struct(t) => "(" + Signature(t) + ")"
    case Variant(_) => "v"
  }

  /** TypeMapper<std::pair<K, U>>::signature(). */
  function PairSignature(k: Kind, u: Ty): (s: string)
    ensures s != ""
    decreases u, 1
  {
    "{" + [Code(k)] + Signature(u) + "}"
  }

  function FieldsSignature(fs: Fields): (s: string)
    ensures s != ""
    decreases fs, 0
  {
    match fs
    case Last(t) => Signature(t)
    case More(t, r) => Signature(t) + FieldsSignature(r)
  }

  /** Number of single complete types a C++ type occupies in a message: tuples are laid out inline. */
  function Width(ty: Ty): (n: nat)
    ensures n >= 1
    decreases ty
  {
    if ty.Tuple? then FieldsWidth(ty.fields) else 1
  }

  function FieldsWidth(fs: Fields): (n: nat)
    ensures n >= 1
    decreases fs
  {
    match fs
    case Last(t) => Width(t)
    case More(t, r) => Width(t) + FieldsWidth(r)
  }

  /** Array elements, dict values and variant payloads must be single complete types. */
  predicate WellFormed(ty: Ty)
    decreases ty
  {
    match ty
    case Scalar(_) => true
    case Vec(e) => Width(e) == 1 && WellFormed(e)
    case Map(_, u) => Width(u) == 1 && WellFormed(u)
    case Tuple(fs) => WellFormedFields(fs)
    case Struct(t) => WellFormed(t)
    case Variant(t) => Width(t) == 1 && WellFormed(t)
  }

  predicate WellFormedFields(fs: Fields)
    decreases fs
  {
    WellFormed(fs.ty) && (fs.More? ==> WellFormedFields(fs.rest))
  }

  /** The wire types a C++ type stands for, as the D-Bus Specification reads them. */
  function Shapes(ty: Ty): (r: seq<S.Shape>)
    requires WellFormed(ty)
    ensures |r| == Width(ty)
    decreases ty
  {
    match ty
    case Scalar(k) => [S.Basic(Code(k))]
    case Vec(e) => [S.Array(Shapes(e)[0])]
    case Map(k, u) => [S.Dict(Code(k), Shapes(u)[0])]
    case Tuple(fs) => FieldsShapes(fs)
    case Struct(t) => [S.Struct(Shapes(t))]
    case Variant(_) => [S.Variant]
  }

  function FieldsShapes(fs: Fields): (r: seq<S.Shape>)
    requires WellFormedFields(fs)
    ensures |r| == FieldsWidth(fs)
    decreases fs
  {
    match fs
    case Last(t) => Shapes(t)
    case More(t, r) => Shapes(t) + FieldsShapes(r)
  }

  lemma RenderAllConcat(a: seq<S.Shape>, b: seq<S.Shape>)
    ensures S.RenderAll(a + b) == S.RenderAll(a) + S.RenderAll(b)
    ensures S.ValidAll(a) && S.ValidAll(b) ==> S.ValidAll(a + b)
  {
    if a == [] {
      assert a + b == b;
    } else {
      assert (a + b)[1..] == a[1..] + b;
      RenderAllConcat(a[1..], b);
    }
  }

  lemma RenderOne(s: S.Shape)
    ensures S.RenderAll([s]) == S.Render(s)
    ensures S.ValidAll([s]) == S.Valid(s)
  {
    assert [s][1..] == [];
  }

  lemma {:induction false} SignatureRendersShapes(ty: Ty)
    requires WellFormed(ty)
    ensures S.ValidAll(Shapes(ty)) && Signature(ty) == S.RenderAll(Shapes(ty))
    decreases ty
  {
    if !ty.Tuple? {
      assert Shapes(ty) == [Shapes(ty)[0]];
      RenderOne(Shapes(ty)[0]);
    }
    match ty
    case Scalar(k) =>
    case Vec(e) =>
      SignatureRendersShapes(e);
      assert Shapes(e) == [Shapes(e)[0]];
      RenderOne(Shapes(e)[0]);
    case Map(k, u) =>
      SignatureRendersShapes(u);
      assert Shapes(u) == [Shapes(u)[0]];
      RenderOne(Shapes(u)[0]);
    case Tuple(fs) => FieldsRenderShapes(fs);
    case Struct(t) => SignatureRendersShapes(t);
    case Variant(_) =>
  }

  lemma {:induction false} FieldsRenderShapes(fs: Fields)
    requires WellFormedFields(fs)
    ensures S.ValidAll(FieldsShapes(fs)) && FieldsSignature(fs) == S.RenderAll(FieldsShapes(fs))
    decreases fs
  {
    SignatureRendersShapes(fs.ty);
    if fs.More? {
      FieldsRenderShapes(fs.rest);
      RenderAllConcat(Shapes(fs.ty), FieldsShapes(fs.rest));
    }
  }

  /** A D-Bus signature parser undoes TypeMapper: a whole signature parses to the wire types, in order. */
  lemma SignatureParses(ty: Ty)
    requires WellFormed(ty)
    ensures S.ParseAll(Signature(ty)) == Some(Shapes(ty))
  {
    SignatureRendersShapes(ty);
    S.ParseAllExact(Signature(ty), Shapes(ty));
  }

  /** In front of any other text, the signature of a single complete type is read off exactly. */
  lemma SignatureParsesInContext(ty: Ty, r: string)
    requires WellFormed(ty) && Width(ty) == 1
    ensures S.ParseOne(Signature(ty) + r) == Some((Shapes(ty)[0], r))
  {
    SignatureRendersShapes(ty);
    var sh := Shapes(ty)[0];
    assert Shapes(ty) == [sh];
    RenderOne(sh);
    S.ParseOneComplete(sh, r);
  }

  /** Two C++ types have one signature exactly when they occupy a message in the same way. */
  lemma SignatureDeterminesShapes(a: Ty, b: Ty)
    requires WellFormed(a) && WellFormed(b)
    ensures Signature(a) == Signature(b) <==> Shapes(a) == Shapes(b)
  {
    SignatureParses(a);
    SignatureParses(b);
    SignatureRendersShapes(a);
    SignatureRendersShapes(b);
  }
}
