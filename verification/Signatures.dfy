/**
 Type signatures as the D-Bus Specification, "Type System", defines them (single complete types; container types;
 dict entries only inside arrays, with a basic key).  The length limit of 255 and the nesting limits of 32 of
 "Valid signatures" are not imposed.
 */
module Signatures {
  import opened Wrappers

  datatype Shape =
    | Basic(code: char)
    | Variant
    | Array(elem: Shape)
    | Dict(key: char, value: Shape)
    | Struct(fields: seq<Shape>)

  predicate IsBasicCode(c: char) {
    c == 'y' || c == 'b' || c == 'n' || c == 'q' || c == 'i' || c == 'u' || c == 'x' || c == 't' ||
    c == 'd' || c == 's' || c == 'o' || c == 'g' || c == 'h'
  }

  predicate Valid(s: Shape)
    decreases s, 0
  {
    match s
    case Basic(c) => IsBasicCode(c)
    case Variant => true
    case Array(e) => Valid(e)
    case Dict(k, v) => IsBasicCode(k) && Valid(v)
    case Struct(fs) => fs != [] && ValidAll(fs)
  }

  predicate ValidAll(ss: seq<Shape>)
    decreases ss, 1
  {
    ss == [] || (Valid(ss[0]) && ValidAll(ss[1..]))
  }

  function Render(s: Shape): (r: string)
    ensures r != ""
    decreases s, 0
  {
    match s
    case Basic(c) => [c]
    case Variant => "v"
    case Array(e) => "a" + Render(e)
    case Dict(k, v) => "a{" + [k] + Render(v) + "}"
    case Struct(fs) => "(" + RenderAll(fs) + ")"
  }

  function RenderAll(ss: seq<Shape>): string
    decreases ss, 1
  {
    if ss == [] then "" else Render(ss[0]) + RenderAll(ss[1..])
  }

  /** Reads one single complete type and returns what follows it. */
  function ParseOne(s: string): (r: Option<(Shape, string)>)
    ensures r.Some? ==> |r.value.1| < |s|
    decreases |s|, 0
  {
    if s == "" then None
    else if IsBasicCode(s[0]) then Some((Basic(s[0]), s[1..]))
    else if s[0] == 'v' then Some((Variant, s[1..]))
    else if s[0] == 'a' then
      if |s| >= 3 && s[1] == '{' && IsBasicCode(s[2]) then
        match ParseOne(s[3..])
        case Some((v, r)) => if r != "" && r[0] == '}' then Some((Dict(s[2], v), r[1..])) else None
        case None => None
      else
        match ParseOne(s[1..])
        case Some((e, r)) => Some((Array(e), r))
        case None => None
    else if s[0] == '(' then
      match ParseFields(s[1..])
      case Some((fs, r)) => if fs == [] then None else Some((Struct(fs), r))
      case None => None
    else None
  }

  /** Reads complete types up to and including a closing parenthesis. */
  function ParseFields(s: string): (r: Option<(seq<Shape>, string)>)
    ensures r.Some? ==> |r.value.1| < |s|
    decreases |s|, 1
  {
    if s == "" then None
    else if s[0] == ')' then Some(([], s[1..]))
    else
      match ParseOne(s)
      case None => None
      case Some((f, r)) =>
        match ParseFields(r)
        case None => None
        case Some((fs, q)) => Some(([f] + fs, q))
  }

  /** A whole signature: any number of single complete types. */
  function ParseAll(s: string): Option<seq<Shape>>
    decreases |s|
  {
    if s == "" then Some([])
    else
      match ParseOne(s)
      case None => None
      case Some((f, r)) =>
        match ParseAll(r)
        case None => None
        case Some(fs) => Some([f] + fs)
  }

  lemma {:induction false} ParseOneSound(s: string)
    ensures var p := ParseOne(s); p.Some? ==> Valid(p.value.0) && s == Render(p.value.0) + p.value.1
    decreases |s|, 0
  {
    if s == "" || IsBasicCode(s[0]) || s[0] == 'v' {
    } else if s[0] == 'a' {
      if |s| >= 3 && s[1] == '{' && IsBasicCode(s[2]) {
        ParseOneSound(s[3..]);
      } else {
        ParseOneSound(s[1..]);
      }
    } else if s[0] == '(' {
      ParseFieldsSound(s[1..]);
    }
  }

  lemma {:induction false} ParseFieldsSound(s: string)
    ensures var p := ParseFields(s); p.Some? ==> ValidAll(p.value.0) && s == RenderAll(p.value.0) + ")" + p.value.1
    decreases |s|, 1
  {
    if s == "" || s[0] == ')' {
    } else {
      ParseOneSound(s);
      match ParseOne(s)
      case None =>
      case Some((f, r)) =>
        ParseFieldsSound(r);
        match ParseFields(r)
        case None =>
        case Some((fs, q)) =>
          assert ([f] + fs)[1..] == fs;
          assert s == Render(f) + (RenderAll(fs) + ")" + q);
    }
  }

  lemma RenderStart(s: Shape)
    requires Valid(s)
    ensures Render(s)[0] != ')' && Render(s)[0] != '}' && Render(s)[0] != '{'
  {
  }

  lemma DictComplete(k: char, v: Shape, r: string)
    requires IsBasicCode(k) && ParseOne(Render(v) + ("}" + r)) == Some((v, "}" + r))
    ensures ParseOne(Render(Dict(k, v)) + r) == Some((Dict(k, v), r))
  {
    var w := Render(Dict(k, v)) + r;
    assert w[..3] == "a{" + [k] && w[3..] == Render(v) + ("}" + r);
    assert w[0] == 'a' && w[1] == '{' && w[2] == k;
    assert ("}" + r)[1..] == r;
  }

  lemma {:induction false} ParseOneComplete(s: Shape, r: string)
    requires Valid(s)
    ensures ParseOne(Render(s) + r) == Some((s, r))
    decreases s, 0
  {
    var w := Render(s) + r;
    match s
    case Basic(c) =>
    case Variant =>
    case Array(e) =>
      assert w[1..] == Render(e) + r;
      RenderStart(e);
      ParseOneComplete(e, r);
    case Dict(k, v) =>
      ParseOneComplete(v, "}" + r);
      DictComplete(k, v, r);
    case Struct(fs) =>
      assert w[1..] == RenderAll(fs) + (")" + r);
      ParseFieldsComplete(fs, r);
  }

  lemma {:induction false} ParseFieldsComplete(fs: seq<Shape>, r: string)
    requires ValidAll(fs)
    ensures ParseFields(RenderAll(fs) + (")" + r)) == Some((fs, r))
    decreases fs, 1
  {
    var w := RenderAll(fs) + (")" + r);
    if fs == [] {
      assert w == ")" + r;
    } else {
      var q := RenderAll(fs[1..]) + (")" + r);
      assert w == Render(fs[0]) + q;
      RenderStart(fs[0]);
      ParseOneComplete(fs[0], q);
      ParseFieldsComplete(fs[1..], r);
      assert w[0] == Render(fs[0])[0];
      assert fs == [fs[0]] + fs[1..];
    }
  }

  /** The parser accepts exactly the renderings of valid shapes, and returns the shapes rendered. */
  lemma {:induction false} ParseAllExact(s: string, ss: seq<Shape>)
    ensures ParseAll(s) == Some(ss) <==> ValidAll(ss) && s == RenderAll(ss)
    decreases |s|
  {
    if s == "" {
      if ss != [] { assert RenderAll(ss) != ""; }
    } else {
      ParseOneSound(s);
      if ss != [] {
        var q := RenderAll(ss[1..]);
        if ValidAll(ss) {
          ParseOneComplete(ss[0], q);
        }
        match ParseOne(s)
        case None =>
        case Some((f, r)) =>
          ParseAllExact(r, ss[1..]);
          if ParseAll(s) == Some(ss) {
            assert ss == [f] + ParseAll(r).value;
            assert ParseAll(r).value == ss[1..];
          }
          if ValidAll(ss) && s == RenderAll(ss) {
            assert f == ss[0] && r == q;
            assert ss == [f] + ss[1..];
          }
      }
    }
  }
}
