/**
 The C++ spelling of a D-Bus signature that the generator aims at: void for nothing, the bare type for one complete
 type, std::tuple for several (src/core/dbus/generator.cpp:196-295); and how the kind of a type is told from its
 spelling.
 */
module CppNames {
  import opened Signatures

  function BasicName(c: char): string {
    match c
    case 'y' => "std::uint8_t"
    case 'b' => "bool"
    case 'n' => "std::int16_t"
    case 'q' => "std::uint16_t"
    case 'i' => "std::int32_t"
    case 'u' => "std::uint32_t"
    case 'x' => "std::int64_t"
    case 't' => "std::uint64_t"
    case 'd' => "double"
    case 's' => "std::string"
    case 'o' => "core::dbus::types::ObjectPath"
    case 'g' => "core::dbus::types::Signature"
    case 'h' => "core::dbus::types::UnixFd"
    case 'v' => "core::dbus::types::Variant<>"
    case _ => ""
  }

  function CppType(s: Shape): string
    decreases s, 0
  {
    match s
    case Basic(c) => BasicName(c)
    case Variant => BasicName('v')
    case Array(e) => "std::vector<" + CppType(e) + ">"
    case Dict(k, v) => "std::vector<" + ("std::pair<" + BasicName(k) + ", " + CppType(v) + ">") + ">"
    case Struct(fs) => "std::tuple<" + Joined(fs) + ">"
  }

  /** The spellings of several types, separated by commas. */
  function Joined(ss: seq<Shape>): string
    decreases ss, 1
  {
    if ss == [] then ""
    else if |ss| == 1 then CppType(ss[0])
    else CppType(ss[0]) + "," + Joined(ss[1..])
  }

  function CppSignature(ss: seq<Shape>): string {
    if ss == [] then "void" else if |ss| == 1 then CppType(ss[0]) else "std::tuple<" + Joined(ss) + ">"
  }

  // ---------------------------------------------------------------- unique readability

  function At(s: string, i: nat): char {
    if i < |s| then s[i] else ' '
  }

  /** The text every spelling of a kind of type starts with; 'a', 'r', 'e' are arrays, structs and dict entries. */
  function Opening(t: char): string {
    match t
    case 'a' => "std::vector<"
    case 'r' => "std::tuple<"
    case 'e' => "std::pair<"
    case _ => BasicName(t)
  }

  predicate IsKind(t: char) {
    IsBasicCode(t) || t == 'v' || t == 'a' || t == 'r' || t == 'e'
  }

  /** Tells the kind of type from a few characters of its spelling. */
  function KindOf(s: string): char {
    if At(s, 0) == 'b' then 'b'
    else if At(s, 0) == 'd' then 'd'
    else if At(s, 0) == 'c' then
      if At(s, 19) == 'O' then 'o' else if At(s, 19) == 'S' then 'g' else if At(s, 19) == 'U' then 'h' else 'v'
    else if At(s, 5) == 'u' then
      if At(s, 9) == '8' then 'y' else if At(s, 9) == '1' then 'q' else if At(s, 9) == '3' then 'u' else 't'
    else if At(s, 5) == 'i' then
      if At(s, 8) == '1' then 'n' else if At(s, 8) == '3' then 'i' else 'x'
    else if At(s, 5) == 's' then 's'
    else if At(s, 5) == 'v' then 'a'
    else if At(s, 5) == 't' then 'r'
    else 'e'
  }

  lemma OpeningTells(t: char)
    requires IsKind(t)
    ensures KindOf(Opening(t)) == t
    ensures |Opening(t)| >= 4
    ensures Opening(t)[0] == 'c' ==> |Opening(t)| >= 20
    ensures Opening(t)[0] == 's' ==> |Opening(t)| >= 10
  {
  }

  lemma KindOfOpening(t: char, r: string)
    requires IsKind(t)
    ensures KindOf(Opening(t) + r) == t
  {
    OpeningTells(t);
    var s := Opening(t) + r;
    assert forall i | 0 <= i < |Opening(t)| :: s[i] == Opening(t)[i];
    assert Opening(t)[0] == 'c' || Opening(t)[0] == 's' || Opening(t)[0] == 'b' || Opening(t)[0] == 'd';
  }

  lemma SameOpening(t: char, u: char, r: string, q: string)
    requires IsKind(t) && IsKind(u) && Opening(t) + r == Opening(u) + q
    ensures t == u && r == q
  {
    KindOfOpening(t, r);
    KindOfOpening(u, q);
    assert r == (Opening(t) + r)[|Opening(t)|..];
    assert q == (Opening(u) + q)[|Opening(u)|..];
  }
}
