/**
 Match rules (src/core/dbus/match_rule.cpp:27-171) as text and back: the printer with its two-state comma, and a
 parser for the rules of the D-Bus Specification, "Message Bus Message Routing", "Match Rules".
 */
module MatchRule {
  import opened Sequences
  import opened Wrappers

  /** Message::Type; `invalid` stands for a rule without a type. */
  datatype MessageType = Invalid | Signal | MethodCall | MethodReturn | Error

  datatype Rule = Rule(typ: MessageType, sender: string, interface: string, member: string, path: string,
                       args: seq<(nat, string)>)

  /** A rule that says nothing. */
  const ANY := Rule(Invalid, "", "", "", "", [])

  function TypeName(t: MessageType): string {
    match t
    case Invalid => "invalid"
    case Signal => "signal"
    case MethodCall => "method_call"
    case MethodReturn => "method_return"
    case Error => "error"
  }

  // ---------------------------------------------------------------- decimal numbers

  predicate IsDigit(c: char) {
    '0' <= c <= '9'
  }

  function Digit(n: nat): char
    requires n < 10
  {
    '0' + n as char
  }

  function Decimal(n: nat): (s: string)
    ensures s != "" && forall i | 0 <= i < |s| :: IsDigit(s[i])
  {
    if n < 10 then [Digit(n)] else Decimal(n / 10) + [Digit(n % 10)]
  }

  function Number(s: string): Option<nat> {
    if s == "" then None
    else
      var n := |s| - 1;
      if !IsDigit(s[n]) then None
      else if n == 0 then Some((s[n] - '0') as nat)
      else match Number(s[..n])
           case None => None
           case Some(k) => Some(10 * k + (s[n] - '0') as nat)
  }

  lemma {:induction false} DecimalReadsBack(n: nat)
    ensures Number(Decimal(n)) == Some(n) && (n > 0 ==> Decimal(n)[0] != '0')
  {
    if n >= 10 {
      DecimalReadsBack(n / 10);
      var s := Decimal(n);
      assert s[..|s| - 1] == Decimal(n / 10);
      assert n == 10 * (n / 10) + n % 10;
    }
  }

  // ---------------------------------------------------------------- clauses

  datatype Pair = Pair(key: string, value: string)

  /** What a rule has to say, in the order of the printer. */
  function Clauses(r: Rule): seq<Pair> {
    (if r.typ == Invalid then [] else [Pair("type", TypeName(r.typ))]) + Fields(r) + ArgClauses(r.args)
  }

  function Fields(r: Rule): seq<Pair> {
    Field("sender", r.sender) + Field("interface", r.interface) + Field("member", r.member) + Field("path", r.path)
  }

  function Field(key: string, value: string): seq<Pair> {
    if value == "" then [] else [Pair(key, value)]
  }

  function ArgClauses(args: seq<(nat, string)>): seq<Pair> {
    if args == [] then [] else [Pair("arg" + Decimal(args[0].0), args[0].1)] + ArgClauses(args[1..])
  }

  function ClauseText(c: Pair): string {
    c.key + "='" + c.value + "'"
  }

  /** Clauses separated by commas. */
  function Joined(cs: seq<Pair>): string {
    if cs == [] then ""
    else if |cs| == 1 then ClauseText(cs[0])
    else ClauseText(cs[0]) + "," + Joined(cs[1..])
  }

  /** Clauses, each followed by a comma. */
  function Trailed(cs: seq<Pair>): string {
    if cs == [] then "" else ClauseText(cs[0]) + "," + Trailed(cs[1..])
  }

  function Listed(typed: bool, cs: seq<Pair>): string {
    if typed then Joined(cs) else Trailed(cs)
  }

  /** A rule's text: only a rule with a type puts its commas in between. */
  function Text(r: Rule): string {
    Listed(r.typ != Invalid, Clauses(r))
  }

  lemma {:induction false} JoinedSnoc(cs: seq<Pair>, c: Pair)
    ensures Joined(cs + [c]) == if cs == [] then ClauseText(c) else Joined(cs) + "," + ClauseText(c)
  {
    if |cs| == 1 {
      assert (cs + [c])[1..] == [c];
    } else if |cs| > 1 {
      assert (cs + [c])[1..] == cs[1..] + [c];
      JoinedSnoc(cs[1..], c);
      var t, j := ClauseText(cs[0]) + ",", Joined(cs[1..]);
      assert t + (j + "," + ClauseText(c)) == t + j + "," + ClauseText(c);
    }
  }

  lemma {:induction false} TrailedSnoc(cs: seq<Pair>, c: Pair)
    ensures Trailed(cs + [c]) == Trailed(cs) + ClauseText(c) + ","
  {
    if cs == [] {
      assert ([] + [c])[1..] == [];
      assert ClauseText(c) + "," + "" == "" + ClauseText(c) + ",";
    } else {
      assert (cs + [c])[1..] == cs[1..] + [c];
      TrailedSnoc(cs[1..], c);
      var t, j := ClauseText(cs[0]) + ",", Trailed(cs[1..]);
      assert t + (j + ClauseText(c) + ",") == t + j + ClauseText(c) + ",";
    }
  }

  lemma ListedSnoc(typed: bool, cs: seq<Pair>, c: Pair)
    requires typed ==> cs != []
    ensures Listed(typed, cs + [c]) ==
            Listed(typed, cs) + (if typed then "," else "") + ClauseText(c) + (if typed then "" else ",")
  {
    JoinedSnoc(cs, c);
    TrailedSnoc(cs, c);
    assert Joined(cs) + "," + ClauseText(c) + "" == Joined(cs) + "," + ClauseText(c);
    assert Trailed(cs) + "" == Trailed(cs);
  }

  // ---------------------------------------------------------------- the class

  class Comma {
    var isRequired: bool

    constructor ()
      ensures !isRequired
    {
      isRequired := false;
    }

    method Stream() returns (s: string)
      modifies this
      ensures s == if old(isRequired) then "," else ""
      ensures isRequired == !old(isRequired)
    {
      s := if isRequired then "," else "";
      isRequired := !isRequired;
    }
  }

  class MatchRule {
    var typ: MessageType
    var sender: string
    var interface: string
    var member: string
    var path: string
    var args: seq<(nat, string)>

    function Value(): Rule
      reads this
    {
      Rule(typ, sender, interface, member, path, args)
    }

    /** A fresh rule already names the root path. */
    constructor ()
      ensures Value() == ANY.(path := "/")
    {
      typ, sender, interface, member, path, args := Invalid, "", "", "", "/", [];
    }

    constructor Copy(rhs: MatchRule)
      ensures Value() == rhs.Value()
    {
      typ, sender, interface := rhs.typ, rhs.sender, rhs.interface;
      member, path, args := rhs.member, rhs.path, rhs.args;
    }

    method SetType(t: MessageType)
      modifies this
      ensures Value() == old(Value()).(typ := t)
    {
      typ := t;
    }

    method SetSender(s: string)
      modifies this
      ensures Value() == old(Value()).(sender := s)
    {
      sender := s;
    }

    method SetInterface(i: string)
      modifies this
      ensures Value() == old(Value()).(interface := i)
    {
      interface := i;
    }

    method SetMember(m: string)
      modifies this
      ensures Value() == old(Value()).(member := m)
    {
      member := m;
    }

    method SetPath(p: string)
      modifies this
      ensures Value() == old(Value()).(path := p)
    {
      path := p;
    }

    method SetArgs(a: seq<(nat, string)>)
      modifies this
      ensures Value() == old(Value()).(args := a)
    {
      args := a;
    }

    /** The const overloads change a copy. */
    method WithMember(m: string) returns (r: MatchRule)
      ensures fresh(r) && r.Value() == Value().(member := m)
    {
      r := new MatchRule.Copy(this);
      r.SetMember(m);
    }

    /** One clause of as_string, between two writings of the comma. */
    method Write(s: string, comma: Comma, c: Pair, ghost cs: seq<Pair>) returns (t: string)
      requires s == Listed(comma.isRequired, cs) && (comma.isRequired ==> cs != [])
      modifies comma
      ensures comma.isRequired == old(comma.isRequired)
      ensures t == Listed(comma.isRequired, cs + [c])
    {
      ListedSnoc(comma.isRequired, cs, c);
      var a := comma.Stream();
      var b := comma.Stream();
      t := s + a + ClauseText(c) + b;
    }

    /** A clause that is left out when its value is empty. */
    method WriteField(s: string, comma: Comma, key: string, value: string, ghost cs: seq<Pair>) returns (t: string)
      requires s == Listed(comma.isRequired, cs) && (comma.isRequired ==> cs != [])
      modifies comma
      ensures comma.isRequired == old(comma.isRequired)
      ensures t == Listed(comma.isRequired, cs + Field(key, value))
    {
      if value == "" {
        assert cs + [] == cs;
        t := s;
      } else {
        t := Write(s, comma, Pair(key, value), cs);
      }
    }

    /** as_string. */
    method AsString() returns (s: string)
      ensures s == Text(Value())
    {
      var comma := new Comma();
      ghost var cs: seq<Pair> := [];
      s := "";
      if typ != Invalid {
        var c := comma.Stream();
        s := ClauseText(Pair("type", TypeName(typ))) + c;
        cs := [Pair("type", TypeName(typ))];
        assert s == Joined(cs);
      }
      s := WriteFields(s, comma, cs);
      s := WriteArgs(s, comma, cs + Fields(Value()));
    }

    method WriteFields(s: string, comma: Comma, ghost cs: seq<Pair>) returns (t: string)
      requires s == Listed(comma.isRequired, cs) && (comma.isRequired ==> cs != [])
      modifies comma
      ensures comma.isRequired == old(comma.isRequired)
      ensures t == Listed(comma.isRequired, cs + Fields(Value()))
    {
      ghost var a, b, c := Field("sender", sender), Field("interface", interface), Field("member", member);
      t := WriteField(s, comma, "sender", sender, cs);
      t := WriteField(t, comma, "interface", interface, cs + a);
      t := WriteField(t, comma, "member", member, cs + a + b);
      t := WriteField(t, comma, "path", path, cs + a + b + c);
      FiveGroups(cs, a, b, c, Field("path", path));
    }

    method WriteArgs(s: string, comma: Comma, ghost cs: seq<Pair>) returns (t: string)
      requires s == Listed(comma.isRequired, cs) && (comma.isRequired ==> cs != [])
      modifies comma
      ensures t == Listed(old(comma.isRequired), cs + ArgClauses(args))
    {
      t := s;
      assert cs + [] == cs;
      for i := 0 to |args|
        invariant comma.isRequired == old(comma.isRequired)
        invariant t == Listed(comma.isRequired, cs + ArgClauses(args[..i]))
      {
        ArgsSnoc(args, i);
        Group(cs, ArgClauses(args[..i]), [Pair("arg" + Decimal(args[i].0), args[i].1)]);
        t := Write(t, comma, Pair("arg" + Decimal(args[i].0), args[i].1), cs + ArgClauses(args[..i]));
      }
      assert args[..|args|] == args;
    }
  }

  lemma FiveGroups<X>(s: seq<X>, a: seq<X>, b: seq<X>, c: seq<X>, d: seq<X>)
    ensures s + a + b + c + d == s + (a + b + c + d)
  {
  }

  lemma {:induction false} ArgClausesConcat(a: seq<(nat, string)>, b: seq<(nat, string)>)
    ensures ArgClauses(a + b) == ArgClauses(a) + ArgClauses(b)
  {
    if a == [] {
      assert a + b == b;
    } else {
      assert (a + b)[1..] == a[1..] + b;
      ArgClausesConcat(a[1..], b);
    }
  }

  lemma ArgsSnoc(args: seq<(nat, string)>, i: nat)
    requires i < |args|
    ensures ArgClauses(args[..i + 1]) == ArgClauses(args[..i]) + [Pair("arg" + Decimal(args[i].0), args[i].1)]
  {
    TakeSnoc(args, i);
    ArgClausesConcat(args[..i], [args[i]]);
    var one: seq<(nat, string)> := [args[i]];
    assert one[1..] == [];
  }

  // ---------------------------------------------------------------- reading a rule

  /** The text in front of and behind the first c. */
  function Cut(s: string, c: char): Option<(string, string)> {
    if s == "" then None
    else if s[0] == c then Some(("", s[1..]))
    else match Cut(s[1..], c)
         case None => None
         case Some((a, b)) => Some(([s[0]] + a, b))
  }

  lemma {:induction false} CutFinds(a: string, c: char, b: string)
    requires c !in a
    ensures Cut(a + [c] + b, c) == Some((a, b))
  {
    if a == "" {
      assert a + [c] + b == [c] + b;
    } else {
      assert (a + [c] + b)[1..] == a[1..] + [c] + b;
      CutFinds(a[1..], c, b);
      assert a == [a[0]] + a[1..];
    }
  }

  lemma {:induction false} CutSound(s: string, c: char)
    ensures var p := Cut(s, c); p.Some? ==> c !in p.value.0 && s == p.value.0 + [c] + p.value.1
  {
    if s != "" && s[0] != c {
      CutSound(s[1..], c);
    }
  }

  /** One clause, and what follows its closing apostrophe. */
  function ReadClause(s: string): Option<(Pair, string)> {
    match Cut(s, '=')
    case None => None
    case Some((k, r)) =>
      if r == "" || r[0] != '\'' then None
      else match Cut(r[1..], '\'')
           case None => None
           case Some((v, q)) => Some((Pair(k, v), q))
  }

  lemma ReadClauseSound(s: string)
    ensures var p := ReadClause(s);
            p.Some? ==> '=' !in p.value.0.key && '\'' !in p.value.0.value && s == ClauseText(p.value.0) + p.value.1
  {
    CutSound(s, '=');
    match Cut(s, '=')
    case None =>
    case Some((k, r)) =>
      if r != "" && r[0] == '\'' {
        CutSound(r[1..], '\'');
        match Cut(r[1..], '\'')
        case None =>
        case Some((v, q)) =>
          assert r == "'" + (v + "'" + q);
          Requote(k, v, q);
      }
  }

  lemma Requote(k: string, v: string, q: string)
    ensures k + "=" + ("'" + (v + "'" + q)) == k + "='" + v + "'" + q
  {
  }

  lemma ReadClauseFinds(c: Pair, r: string)
    requires '=' !in c.key && '\'' !in c.value
    ensures ReadClause(ClauseText(c) + r) == Some((c, r))
  {
    var t := "'" + (c.value + "'" + r);
    Requote(c.key, c.value, r);
    CutFinds(c.key, '=', t);
    assert t[1..] == c.value + "'" + r;
    CutFinds(c.value, '\'', r);
  }

  /** Clauses with a comma between every two of them. */
  function ReadClauses(s: string): Option<seq<Pair>>
    decreases |s|
  {
    ReadClauseSound(s);
    match ReadClause(s)
    case None => None
    case Some((c, r)) =>
      if r == "" then Some([c])
      else if r[0] != ',' then None
      else match ReadClauses(r[1..])
           case None => None
           case Some(cs) => Some([c] + cs)
  }

  predicate Plain(cs: seq<Pair>) {
    forall i | 0 <= i < |cs| :: '=' !in cs[i].key && '\'' !in cs[i].value
  }

  /** Reading clauses undoes joining them, exactly as long as values hold no apostrophe and keys no equals sign. */
  lemma {:induction false} ReadClausesExact(s: string, cs: seq<Pair>)
    ensures ReadClauses(s) == Some(cs) <==> cs != [] && Plain(cs) && s == Joined(cs)
    decreases |s|
  {
    if cs != [] && Plain(cs) && s == Joined(cs) {
      ReadsJoined(cs);
    }
    ReadClausesSound(s);
  }

  lemma {:induction false} ReadsJoined(cs: seq<Pair>)
    requires cs != [] && Plain(cs)
    ensures ReadClauses(Joined(cs)) == Some(cs)
  {
    assert cs == [cs[0]] + cs[1..];
    if |cs| == 1 {
      ReadClauseFinds(cs[0], "");
      assert ClauseText(cs[0]) + "" == ClauseText(cs[0]);
      assert cs == [cs[0]];
      assert Joined(cs) == ClauseText(cs[0]);
      assert ReadClause(Joined(cs)) == Some((cs[0], ""));
    } else {
      ReadClauseFinds(cs[0], "," + Joined(cs[1..]));
      Group(ClauseText(cs[0]), ",", Joined(cs[1..]));
      assert ("," + Joined(cs[1..]))[1..] == Joined(cs[1..]);
      ReadsJoined(cs[1..]);
    }
  }

  lemma {:induction false} ReadClausesSound(s: string)
    ensures var p := ReadClauses(s); p.Some? ==> p.value != [] && Plain(p.value) && s == Joined(p.value)
    decreases |s|
  {
    ReadClauseSound(s);
    match ReadClause(s)
    case None =>
    case Some((c, r)) =>
      if r == "" {
        assert ClauseText(c) + "" == ClauseText(c);
      } else if r[0] == ',' {
        ReadClausesSound(r[1..]);
        match ReadClauses(r[1..])
        case None =>
        case Some(cs) =>
          assert ([c] + cs)[1..] == cs;
          assert r == "," + r[1..];
          Group(ClauseText(c), ",", Joined(cs));
      }
  }

  // ---------------------------------------------------------------- what the clauses mean

  function TypeOf(name: string): Option<MessageType> {
    if name == "signal" then Some(Signal)
    else if name == "method_call" then Some(MethodCall)
    else if name == "method_return" then Some(MethodReturn)
    else if name == "error" then Some(Error)
    else None
  }

  /** One more clause; a key may be given once, argN any number of times. */
  function Assign(r: Rule, c: Pair): Option<Rule> {
    if c.key == "type" then
      match TypeOf(c.value)
      case None => None
      case Some(t) => if r.typ == Invalid then Some(r.(typ := t)) else None
    else if c.key == "sender" then if r.sender == "" then Some(r.(sender := c.value)) else None
    else if c.key == "interface" then if r.interface == "" then Some(r.(interface := c.value)) else None
    else if c.key == "member" then if r.member == "" then Some(r.(member := c.value)) else None
    else if c.key == "path" then if r.path == "" then Some(r.(path := c.value)) else None
    else if |c.key| > 3 && c.key[..3] == "arg" then
      match Number(c.key[3..])
      case None => None
      case Some(n) => Some(r.(args := r.args + [(n, c.value)]))
    else None
  }

  function AssignAll(r: Rule, cs: seq<Pair>): Option<Rule>
    decreases |cs|
  {
    if cs == [] then Some(r)
    else match Assign(r, cs[0])
         case None => None
         case Some(q) => AssignAll(q, cs[1..])
  }

  function ReadRule(s: string): Option<Rule> {
    if s == "" then Some(ANY)
    else match ReadClauses(s)
         case None => None
         case Some(cs) => AssignAll(ANY, cs)
  }

  lemma {:induction false} AssignConcat(r: Rule, a: seq<Pair>, b: seq<Pair>)
    ensures AssignAll(r, a + b) == match AssignAll(r, a) case None => None case Some(q) => AssignAll(q, b)
    decreases |a|
  {
    if a == [] {
      assert a + b == b;
    } else {
      assert (a + b)[1..] == a[1..] + b;
      match Assign(r, a[0])
      case None =>
      case Some(q) => AssignConcat(q, a[1..], b);
    }
  }

  lemma AssignOne(r: Rule, c: Pair)
    ensures AssignAll(r, [c]) == Assign(r, c)
  {
    assert [c][1..] == [];
  }

  lemma {:induction false} AssignArgs(r: Rule, args: seq<(nat, string)>)
    ensures AssignAll(r, ArgClauses(args)) == Some(r.(args := r.args + args))
    decreases |args|
  {
    if args == [] {
      assert r.args + args == r.args;
    } else {
      AssignArg(r, args[0].0, args[0].1);
      AssignArgs(r.(args := r.args + [args[0]]), args[1..]);
      Group(r.args, [args[0]], args[1..]);
      assert [args[0]] + args[1..] == args;
    }
  }

  lemma AssignArg(r: Rule, n: nat, v: string)
    ensures Assign(r, Pair("arg" + Decimal(n), v)) == Some(r.(args := r.args + [(n, v)]))
  {
    DecimalReadsBack(n);
    var k := "arg" + Decimal(n);
    assert k[3..] == Decimal(n) && k[..3] == "arg";
    assert k[0] == 'a' && k[1] == 'r';
  }

  lemma AssignFields(r: Rule, q: Rule)
    requires q.sender == "" && q.interface == "" && q.member == "" && q.path == ""
    ensures AssignAll(q, Fields(r)) == Some(Rule(q.typ, r.sender, r.interface, r.member, r.path, q.args))
  {
    var a, b := Field("sender", r.sender), Field("interface", r.interface);
    var c, d := Field("member", r.member), Field("path", r.path);
    var q1 := q.(sender := r.sender);
    var q2 := q1.(interface := r.interface);
    var q3 := q2.(member := r.member);
    AssignOne(q, Pair("sender", r.sender));
    AssignOne(q1, Pair("interface", r.interface));
    AssignOne(q2, Pair("member", r.member));
    AssignOne(q3, Pair("path", r.path));
    AssignConcat(q, a + b + c, d);
    AssignConcat(q, a + b, c);
    AssignConcat(q, a, b);
  }

  /** The clauses of a rule say the rule. */
  lemma ClausesMean(r: Rule)
    ensures AssignAll(ANY, Clauses(r)) == Some(r)
  {
    var t: seq<Pair> := if r.typ == Invalid then [] else [Pair("type", TypeName(r.typ))];
    var q := ANY.(typ := r.typ);
    AssignOne(ANY, Pair("type", TypeName(r.typ)));
    AssignConcat(ANY, t, Fields(r));
    AssignConcat(ANY, t + Fields(r), ArgClauses(r.args));
    AssignFields(r, q);
    AssignArgs(Rule(r.typ, r.sender, r.interface, r.member, r.path, []), r.args);
    assert [] + r.args == r.args;
  }

  /** No value of the rule holds an apostrophe. */
  predicate Quotable(r: Rule) {
    && '\'' !in r.sender && '\'' !in r.interface && '\'' !in r.member && '\'' !in r.path
    && forall i | 0 <= i < |r.args| :: '\'' !in r.args[i].1
  }

  lemma {:induction false} AssignedQuotable(r: Rule, cs: seq<Pair>)
    requires Quotable(r) && Plain(cs)
    ensures AssignAll(r, cs).Some? ==> Quotable(AssignAll(r, cs).value)
    decreases |cs|
  {
    if cs != [] {
      match Assign(r, cs[0])
      case None =>
      case Some(q) =>
        assert Quotable(q);
        AssignedQuotable(q, cs[1..]);
    }
  }

  lemma {:induction false} ArgClausesPlain(args: seq<(nat, string)>)
    requires forall i | 0 <= i < |args| :: '\'' !in args[i].1
    ensures Plain(ArgClauses(args))
    decreases |args|
  {
    if args != [] {
      ArgClausesPlain(args[1..]);
      assert forall i | 0 <= i < |Decimal(args[0].0)| :: IsDigit(Decimal(args[0].0)[i]);
    }
  }

  lemma PlainConcat(a: seq<Pair>, b: seq<Pair>)
    requires Plain(a) && Plain(b)
    ensures Plain(a + b)
  {
  }

  lemma FieldsPlain(r: Rule)
    requires Quotable(r)
    ensures Plain(Fields(r))
  {
    var a, b := Field("sender", r.sender), Field("interface", r.interface);
    var c, d := Field("member", r.member), Field("path", r.path);
    PlainConcat(a, b);
    PlainConcat(a + b, c);
    PlainConcat(a + b + c, d);
  }

  lemma ClausesPlain(r: Rule)
    requires Quotable(r)
    ensures Plain(Clauses(r))
  {
    var t: seq<Pair> := if r.typ == Invalid then [] else [Pair("type", TypeName(r.typ))];
    assert Plain(t);
    FieldsPlain(r);
    ArgClausesPlain(r.args);
    PlainConcat(t, Fields(r));
    PlainConcat(t + Fields(r), ArgClauses(r.args));
  }

  /** Reading the joined clauses gives the rule back exactly when no value holds an apostrophe. */
  lemma JoinedReadsBack(r: Rule)
    requires Clauses(r) != []
    ensures ReadRule(Joined(Clauses(r))) == Some(r) <==> Quotable(r)
  {
    var s := Joined(Clauses(r));
    assert s != "";
    if Quotable(r) {
      ClausesPlain(r);
      ReadClausesExact(s, Clauses(r));
      ClausesMean(r);
    } else {
      ReadClausesSound(s);
      match ReadClauses(s)
      case None =>
      case Some(cs) => AssignedQuotable(ANY, cs);
    }
  }

  lemma {:induction false} JoinedEnds(cs: seq<Pair>)
    requires cs != []
    ensures Joined(cs) != "" && Joined(cs)[|Joined(cs)| - 1] == '\''
  {
    if |cs| > 1 {
      JoinedEnds(cs[1..]);
    }
  }

  lemma {:induction false} TrailedIsJoined(cs: seq<Pair>)
    requires cs != []
    ensures Trailed(cs) == Joined(cs) + ","
  {
    if |cs| == 1 {
      assert cs[1..] == [];
      assert Trailed(cs) == ClauseText(cs[0]) + "," + "";
    } else {
      TrailedIsJoined(cs[1..]);
      Group(ClauseText(cs[0]) + ",", Joined(cs[1..]), ",");
    }
  }

  /** Without a type, the text is the joined clauses with one comma too many. */
  lemma UntypedText(r: Rule)
    requires r.typ == Invalid && Clauses(r) != []
    ensures Text(r) == Joined(Clauses(r)) + "," && ReadRule(Text(r)) == None
  {
    var cs := Clauses(r);
    TrailedIsJoined(cs);
    ReadClausesSound(Text(r));
    match ReadClauses(Text(r))
    case None =>
    case Some(ds) => JoinedEnds(ds);
  }

  /**
   Reading a rule's text gives the rule back exactly when no value holds an apostrophe and the rule has a type or
   says nothing at all.
   */
  lemma TextReadsBack(r: Rule)
    ensures ReadRule(Text(r)) == Some(r) <==> Quotable(r) && (r.typ != Invalid || Clauses(r) == [])
  {
    if Clauses(r) == [] {
      ClausesMean(r);
    } else if r.typ == Invalid {
      UntypedText(r);
    } else {
      JoinedReadsBack(r);
    }
  }

  /** A member with an apostrophe in it is not read back. */
  lemma ApostropheLost()
    ensures ReadRule(Text(ANY.(typ := Signal, member := "a'b"))) != Some(ANY.(typ := Signal, member := "a'b"))
  {
    assert "a'b"[1] == '\'';
    TextReadsBack(ANY.(typ := Signal, member := "a'b"));
  }

  /** The clauses of a rule that says everything, one after the other. */
  lemma FullText(s: string, i: string, m: string, p: string, n: nat, v: string)
    requires s != "" && i != "" && m != "" && p != ""
    ensures Text(Rule(Signal, s, i, m, p, [(n, v)])) ==
            "type='signal'" + "," + ("sender='" + s + "'" + "," + ("interface='" + i + "'" + "," +
            ("member='" + m + "'" + "," + ("path='" + p + "'" + "," + ("arg" + Decimal(n) + "='" + v + "'")))))
  {
    var r := Rule(Signal, s, i, m, p, [(n, v)]);
    var a := Pair("arg" + Decimal(n), v);
    var p1, p2, p3, p4 := Pair("path", p), Pair("member", m), Pair("interface", i), Pair("sender", s);
    assert r.args[1..] == [];
    assert ArgClauses(r.args) == [a];
    assert Clauses(r) == [Pair("type", "signal")] + ([p4] + ([p3] + ([p2] + ([p1] + [a]))));
    JoinedCons(p1, [a]);
    JoinedCons(p2, [p1] + [a]);
    JoinedCons(p3, [p2] + ([p1] + [a]));
    JoinedCons(p4, [p3] + ([p2] + ([p1] + [a])));
    JoinedCons(Pair("type", "signal"), [p4] + ([p3] + ([p2] + ([p1] + [a]))));
    assert "type" + "='" + "signal" + "'" == "type='signal'" && "path" + "='" == "path='";
    assert "sender" + "='" == "sender='" && "interface" + "='" == "interface='" && "member" + "='" == "member='";
  }

  lemma JoinedCons(c: Pair, cs: seq<Pair>)
    requires cs != []
    ensures Joined([c] + cs) == ClauseText(c) + "," + Joined(cs)
  {
    assert ([c] + cs)[1..] == cs;
  }
}
