/**
 The generator's names for types against TypeMapper's signatures (src/core/dbus/generator.cpp:196-295,
 include/core/dbus/helper/type_mapper.h:106-422): a C++ type goes into a message under a signature, the signature is
 found in an introspection document, and the generator prints a C++ type for it.
 */
module TypeNames {
  import opened CursorTree
  import opened Sequences
  import opened Types
  import opened Wrappers
  import M = Message
  import N = CppNames
  import P = PrintedSignatures
  import S = Signatures
  import ST = SignatureTrees
  import T = TypeMangler

  /** The name that comes back for a scalar. */
  function KindName(k: Kind): string {
    match k
    case Byte => "std::uint8_t"
    case Bool => "bool"
    case I16 => "std::int16_t"
    case U16 => "std::uint16_t"
    case I32 => "std::int32_t"
    case U32 => "std::uint32_t"
    case I64 => "std::int64_t"
    case U64 => "std::uint64_t"
    case Double => "double"
    case Float => "double"
    case Str => "std::string"
    case Path => "core::dbus::types::ObjectPath"
    case Sig => "core::dbus::types::Signature"
  }

  /** The name of the type that has the codec. */
  function Declared(k: Kind): string {
    match k
    case Byte => "std::int8_t"
    case Float => "float"
    case _ => KindName(k)
  }

  function Commas(ns: seq<string>): string {
    if ns == [] then "" else if |ns| == 1 then ns[0] else ns[0] + "," + Commas(ns[1..])
  }

  /** The names for the complete types that a C++ type takes up: maps come back as vectors of pairs, structs as tuples,
      and a variant forgets what it holds. */
  function Names(ty: Ty): (r: seq<string>)
    requires WellFormed(ty)
    ensures |r| == Width(ty)
    decreases ty
  {
    match ty
    case Scalar(k) => [KindName(k)]
    case Vec(e) => ["std::vector<" + Names(e)[0] + ">"]
    case Map(k, u) => ["std::vector<std::pair<" + KindName(k) + ", " + Names(u)[0] + ">>"]
    case Tuple(fs) => FieldsNames(fs)
    case Struct(t) => ["std::tuple<" + Commas(Names(t)) + ">"]
    case Variant(_) => ["core::dbus::types::Variant<>"]
  }

  function FieldsNames(fs: Fields): (r: seq<string>)
    requires WellFormedFields(fs)
    ensures |r| == FieldsWidth(fs)
    decreases fs
  {
    match fs
    case Last(t) => Names(t)
    case More(t, r) => Names(t) + FieldsNames(r)
  }

  function Generated(ty: Ty): string
    requires WellFormed(ty)
  {
    if Width(ty) == 1 then Names(ty)[0] else "std::tuple<" + Commas(Names(ty)) + ">"
  }

  lemma ScalarName(k: Kind)
    ensures N.CppType(S.Basic(Code(k))) == KindName(k)
  {
  }

  /** Names, one by one, of shapes. */
  ghost predicate Spelled(ns: seq<string>, ss: seq<S.Shape>) {
    |ns| == |ss| && forall i | 0 <= i < |ns| :: ns[i] == N.CppType(ss[i])
  }

  lemma {:induction false} SpelledJoined(ns: seq<string>, ss: seq<S.Shape>)
    requires Spelled(ns, ss)
    ensures Commas(ns) == N.Joined(ss)
  {
    if |ns| > 1 {
      SpelledJoined(ns[1..], ss[1..]);
    }
  }

  lemma {:induction false} NamesSpell(ty: Ty)
    requires WellFormed(ty)
    ensures Spelled(Names(ty), Shapes(ty))
    decreases ty
  {
    match ty
    case Scalar(k) => ScalarName(k);
    case Vec(e) => NamesSpell(e);
    case Map(k, u) =>
      NamesSpell(u);
      ScalarName(k);
      PairSpelled(KindName(k), Names(u)[0]);
    case Tuple(fs) => FieldsSpell(fs);
    case Struct(t) =>
      NamesSpell(t);
      SpelledJoined(Names(t), Shapes(t));
    case Variant(_) =>
  }

  lemma PairSpelled(k: string, v: string)
    ensures "std::vector<" + ("std::pair<" + k + ", " + v + ">") + ">" ==
            "std::vector<std::pair<" + k + ", " + v + ">>"
  {
    assert "std::vector<std::pair<" == "std::vector<" + "std::pair<";
    assert ">>" == ">" + ">";
  }

  lemma {:induction false} FieldsSpell(fs: Fields)
    requires WellFormedFields(fs)
    ensures Spelled(FieldsNames(fs), FieldsShapes(fs))
    decreases fs
  {
    NamesSpell(fs.ty);
    if fs.More? {
      FieldsSpell(fs.rest);
    }
  }

  lemma GeneratedSpelled(ty: Ty)
    requires WellFormed(ty)
    ensures N.CppSignature(Shapes(ty)) == Generated(ty)
  {
    NamesSpell(ty);
    SpelledJoined(Names(ty), Shapes(ty));
  }

  /** What a mangler prints after a signature. */
  ghost function Printed(s: string): string
    requires Safe(0, T.StringOps(s)) && T.PairsFilled(ST.Mangled(s).tree)
  {
    T.PrintedType(ST.Mangled(s).tree)
  }

  /** For every type that may be put into a message: after its signature the generator prints its name, exactly if in
      the signature nothing follows a completed array. */
  lemma PrintUndoesMapper(ty: Ty)
    requires WellFormed(ty)
    ensures Safe(0, T.StringOps(Signature(ty))) && T.PairsFilled(ST.Mangled(Signature(ty)).tree)
    ensures Printed(Signature(ty)) == Generated(ty) <==> ST.NothingAfterArray(Shapes(ty))
  {
    SignatureParses(ty);
    P.PrintedExactly(Signature(ty), Shapes(ty));
    GeneratedSpelled(ty);
  }

  /** A scalar comes back as the type that has the codec, except for std::int8_t, for whose unsigned sibling there is
      none, and for float. */
  lemma ScalarsPrinted(k: Kind)
    ensures Safe(0, T.StringOps([Code(k)])) && T.PairsFilled(ST.Mangled([Code(k)]).tree)
    ensures Printed([Code(k)]) == Declared(k) <==> k != Byte && k != Float
  {
    var ty := Scalar(k);
    assert Shapes(ty)[1..] == [];
    assert ST.NothingAfterArray(Shapes(ty));
    PrintUndoesMapper(ty);
    assert Printed([Code(k)]) == KindName(k);
    assert |"std::int8_t"| != |"std::uint8_t"| && |"float"| != |"double"|;
  }

  /** Every basic type of the D-Bus Specification but the file descriptor is that of some scalar. */
  lemma CodesKnown(c: char)
    ensures S.IsBasicCode(c) <==> c == 'h' || exists k :: c == Code(k)
    ensures S.IsBasicCode(c) <==> c in "ybnqiuxtdsogh"
  {
    var ks := [Byte, Bool, I16, U16, I32, U32, I64, U64, Double, Str, Path, Sig];
    if S.IsBasicCode(c) && c != 'h' {
      assert c == Code(ks[0]) || c == Code(ks[1]) || c == Code(ks[2]) || c == Code(ks[3]) || c == Code(ks[4]) ||
             c == Code(ks[5]) || c == Code(ks[6]) || c == Code(ks[7]) || c == Code(ks[8]) || c == Code(ks[9]) ||
             c == Code(ks[10]) || c == Code(ks[11]);
    }
  }

  lemma DescriptorPrinted()
    ensures Safe(0, T.StringOps("h")) && T.PairsFilled(ST.Mangled("h").tree)
    ensures Printed("h") == "core::dbus::types::UnixFd"
  {
    var ss := [S.Basic('h')];
    assert ss[1..] == [];
    assert S.RenderAll(ss) == "h";
    S.ParseAllExact("h", ss);
    assert ST.NothingAfterArray(ss);
    P.PrintedExactly("h", ss);
  }
}
