/**
 Messages and the cursors on them (src/core/dbus/message.cpp, src/core/dbus/message_p.h), over an abstract libdbus:
 a message body is a sequence of typed items, containers hold items of their own.
 */
module Message {
  import T = Types
  import opened Wrappers

  /** A basic item: its D-Bus type code and the value libdbus stores for it. */
  datatype RawPrim = RawPrim(code: char, value: T.Atom)

  ghost predicate PrimOk(p: RawPrim) {
    match p.value
    case Num(n) =>
      (p.code == 'y' && 0 <= n < 0x100) || (p.code == 'b' && 0 <= n <= 1) ||
      (p.code == 'n' && -0x8000 <= n < 0x8000) || (p.code == 'q' && 0 <= n < 0x1_0000) ||
      (p.code == 'i' && -0x8000_0000 <= n < 0x8000_0000) || (p.code == 'u' && 0 <= n < 0x1_0000_0000) ||
      (p.code == 'x' && -0x8000_0000_0000_0000 <= n < 0x8000_0000_0000_0000) ||
      (p.code == 't' && 0 <= n < 0x1_0000_0000_0000_0000) || (p.code == 'h' && 0 <= n)
    case Fp(_) => p.code == 'd'
    case Text(s) => (p.code == 's' || p.code == 'o' || p.code == 'g') && T.NUL !in s
    case Flag(_) => false
  }

  /** libdbus keeps every basic item in the range of its type; C strings end at their NUL. */
  type Prim = p: RawPrim | PrimOk(p) ghost witness RawPrim('y', T.Num(0))

  datatype Item =
    | Basic(prim: Prim)
    | Array(sig: string, items: seq<Item>)
    | Struct(items: seq<Item>)
    | Variant(sig: string, items: seq<Item>)
    | DictEntry(items: seq<Item>)

  /** What dbus_message_iter_get_arg_type reports. */
  function TypeCode(x: Item): char {
    match x
    case Basic(p) => p.code
    case Array(_, _) => 'a'
    case Struct(_) => 'r'
    case Variant(_, _) => 'v'
    case DictEntry(_) => 'e'
  }

  const INVALID: char := '\0'

  /** No item reports the type code that stands for "no more arguments". */
  lemma TypeCodeValid(x: Item)
    ensures TypeCode(x) != INVALID
  {
    if x.Basic? { assert PrimOk(x.prim); }
  }

  /** The characters a C string is read up to. */
  function CString(s: string): (r: string)
    ensures T.NUL !in r
    ensures T.NUL !in s ==> r == s
  {
    if s == "" || s[0] == T.NUL then ""
    else
      var r := [s[0]] + CString(s[1..]);
      assert T.NUL !in s ==> r == s by { assert s == [s[0]] + s[1..]; }
      r
  }

  /** The item push_byte, push_boolean, ..., push_stringn, push_object_path, push_signature append. */
  function ToWire(k: T.Kind, a: T.Atom): (p: Prim)
    requires T.OfKind(k, a)
    ensures p.code == T.Code(k)
  {
    match k
    case Byte => RawPrim('y', T.Num(if a.n < 0 then a.n + 0x100 else a.n))
    case Bool => RawPrim('b', T.Num(if a.b then 1 else 0))
    case Str => RawPrim('s', T.Text(CString(a.s)))
    case Path => RawPrim('o', T.Text(CString(a.s)))
    case Sig => RawPrim('g', T.Text(CString(a.s)))
    case _ => RawPrim(T.Code(k), a)
  }

  /** The value pop_byte, pop_boolean, ... return for an item of the right type. */
  function FromWire(k: T.Kind, p: Prim): (a: T.Atom)
    requires p.code == T.Code(k)
    ensures T.OfKind(k, a)
  {
    match k
    case Byte => T.Num(if p.value.n >= 0x80 then p.value.n - 0x100 else p.value.n)
    case Bool => T.Flag(p.value.n != 0)
    case _ => p.value
  }

  predicate AtomNulFree(a: T.Atom) {
    a.Text? ==> T.NUL !in a.s
  }

  /** A scalar survives the wire exactly when it has no NUL in its text. */
  lemma WireRoundTrip(k: T.Kind, a: T.Atom)
    requires T.OfKind(k, a)
    ensures FromWire(k, ToWire(k, a)) == a <==> AtomNulFree(a)
  {
  }

  lemma {:induction false} CStringIsPrefix(s: string)
    ensures s == CString(s) || (|CString(s)| < |s| && CString(s) + [T.NUL] == s[..|CString(s)| + 1])
  {
    if s != "" && s[0] != T.NUL {
      CStringIsPrefix(s[1..]);
      var r := CString(s[1..]);
      assert CString(s) == [s[0]] + r && s == [s[0]] + s[1..];
      if s[1..] != r {
        assert s[..|r| + 2] == [s[0]] + s[1..][..|r| + 1];
        assert CString(s) + [T.NUL] == [s[0]] + (r + [T.NUL]);
      }
    }
  }

  /** What is on the wire: a byte without its sign, 1 for true, text up to its first NUL, any other number as it is. */
  lemma WireItem(k: T.Kind, a: T.Atom)
    requires T.OfKind(k, a)
    ensures var w := ToWire(k, a).value;
            match a
            case Num(n) => w.Num? && (if k == T.Byte then 0 <= w.n < 256 && (w.n - n) % 256 == 0 else w.n == n)
            case Flag(b) => w == T.Num(1) <==> b
            case Fp(x) => w == T.Fp(x)
            case Text(s) =>
              w.Text? && (s == w.s || (|w.s| < |s| && s[..|w.s|] == w.s && s[|w.s|] == T.NUL))
    ensures k == T.Bool && !a.b ==> ToWire(k, a).value == T.Num(0)
  {
    if a.Text? {
      CStringIsPrefix(a.s);
      var r := CString(a.s);
      if a.s != r {
        assert a.s[..|r| + 1][..|r|] == a.s[..|r|] && a.s[..|r| + 1][|r|] == a.s[|r|];
      }
    }
  }

  /** Message::Writer: an append position, at top level or inside a container that has been opened but not closed. */
  class Writer {
    const sig: string
    var items: seq<Item>

    constructor (sig: string)
      ensures items == [] && this.sig == sig
    {
      this.sig := sig;
      items := [];
    }

    method Push(k: T.Kind, a: T.Atom)
      requires T.OfKind(k, a)
      modifies this
      ensures items == old(items) + [Basic(ToWire(k, a))]
    {
      items := items + [Basic(ToWire(k, a))];
    }

    /** open_array, open_structure, open_variant and open_dict_entry; sig is empty where libdbus wants a null one. */
    method Open(sig: string) returns (w: Writer)
      ensures fresh(w) && w.items == [] && w.sig == sig
    {
      w := new Writer(sig);
    }

    method CloseArray(w: Writer)
      modifies this
      ensures items == old(items) + [Array(w.sig, old(w.items))]
    {
      items := items + [Array(w.sig, w.items)];
    }

    method CloseStructure(w: Writer)
      modifies this
      ensures items == old(items) + [Struct(old(w.items))]
    {
      items := items + [Struct(w.items)];
    }

    method CloseVariant(w: Writer)
      modifies this
      ensures items == old(items) + [Variant(w.sig, old(w.items))]
    {
      items := items + [Variant(w.sig, w.items)];
    }

    method CloseDictEntry(w: Writer)
      modifies this
      ensures items == old(items) + [DictEntry(old(w.items))]
    {
      items := items + [DictEntry(w.items)];
    }
  }

  /** Message::Reader::Private: the iterator that all copies of a Reader share. */
  class Reader {
    var rest: seq<Item>

    constructor (items: seq<Item>)
      ensures rest == items
    {
      rest := items;
    }

    function Type(): char
      reads this
    {
      if rest == [] then INVALID else TypeCode(rest[0])
    }

    /** pop(): dbus_message_iter_next, which stays put at the end. */
    method Skip()
      modifies this
      ensures rest == if old(rest) == [] then [] else old(rest)[1..]
    {
      if rest != [] { rest := rest[1..]; }
    }

    /** pop_byte ... pop_signature: a type mismatch throws and leaves the iterator alone. */
    method Pop(k: T.Kind) returns (r: Option<T.Atom>)
      modifies this
      ensures r == PopSpec(k, old(rest))
      ensures rest == if r.Some? then old(rest)[1..] else old(rest)
    {
      if rest == [] || TypeCode(rest[0]) != T.Code(k) {
        r := None;
      } else {
        r := Some(FromWire(k, rest[0].prim));
        rest := rest[1..];
      }
    }

    /** pop_array, pop_structure, pop_variant and pop_dict_entry: one body, which does not look at the item's type;
        only libdbus refuses to recurse into an item that is not a container. */
    method Recurse() returns (r: Option<Reader>)
      modifies this
      ensures r.Some? <==> Inner(old(rest)).Some?
      ensures r.Some? ==> fresh(r.value) && r.value.rest == Inner(old(rest)).value
      ensures rest == if r.Some? then old(rest)[1..] else old(rest)
    {
      if rest == [] || rest[0].Basic? {
        r := None;
      } else {
        var sub := new Reader(rest[0].items);
        r := Some(sub);
        rest := rest[1..];
      }
    }
  }

  /** What popping a scalar of kind k yields in front of `items`; None where it throws. */
  function PopSpec(k: T.Kind, items: seq<Item>): (r: Option<T.Atom>)
    ensures r.Some? ==> items != [] && T.OfKind(k, r.value)
  {
    if items == [] || TypeCode(items[0]) != T.Code(k) then None else Some(FromWire(k, items[0].prim))
  }

  /** The contents of the container in front. */
  function Inner(items: seq<Item>): (r: Option<seq<Item>>)
    ensures r.Some? ==> items != []
  {
    if items == [] || items[0].Basic? then None else Some(items[0].items)
  }
}
