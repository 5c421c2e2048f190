/**
 Subscriptions to a signal with arguments (include/core/dbus/impl/signal.h:124-257, 304-369): handlers in a multimap
 ordered by their match arguments, one match rule at the bus per distinct key, and dispatch by string arguments.

 A handler is known by its subscription token.
 */
module Subscriptions {
  import opened Wrappers
  import opened Sequences
  import R = MatchRule
  import M = Message
  import T = Types
  import C = Codec
  import S = CodecStream

  type Args = seq<(nat, string)>
  type Token = nat

  // ---------------------------------------------------------------- the order of keys

  predicate PairLess(p: (nat, string), q: (nat, string)) {
    p.0 < q.0 || (p.0 == q.0 && T.LexLess(p.1, q.1))
  }

  /** operator< of vectors of pairs. */
  predicate ArgsLess(a: Args, b: Args)
    decreases |a|
  {
    b != [] && (a == [] || PairLess(a[0], b[0]) || (a[0] == b[0] && ArgsLess(a[1..], b[1..])))
  }

  lemma PairOrder(p: (nat, string), q: (nat, string), r: (nat, string))
    ensures !PairLess(p, p)
    ensures PairLess(p, q) && PairLess(q, r) ==> PairLess(p, r)
    ensures p == q || PairLess(p, q) || PairLess(q, p)
  {
    T.LexIrreflexive(p.1);
    T.LexTotal(p.1, q.1);
    if PairLess(p, q) && PairLess(q, r) && p.0 == q.0 && q.0 == r.0 {
      T.LexTransitive(p.1, q.1, r.1);
    }
  }

  lemma {:induction false} ArgsIrreflexive(a: Args)
    ensures !ArgsLess(a, a)
    decreases |a|
  {
    if a != [] {
      PairOrder(a[0], a[0], a[0]);
      ArgsIrreflexive(a[1..]);
    }
  }

  lemma {:induction false} ArgsTransitive(a: Args, b: Args, c: Args)
    requires ArgsLess(a, b) && ArgsLess(b, c)
    ensures ArgsLess(a, c)
    decreases |a|
  {
    if a != [] {
      PairOrder(a[0], b[0], c[0]);
      PairOrder(a[0], a[0], c[0]);
      if a[0] == b[0] && b[0] == c[0] && ArgsLess(a[1..], b[1..]) && ArgsLess(b[1..], c[1..]) {
        ArgsTransitive(a[1..], b[1..], c[1..]);
      }
    }
  }

  lemma {:induction false} ArgsTotal(a: Args, b: Args)
    ensures a == b || ArgsLess(a, b) || ArgsLess(b, a)
    decreases |a|
  {
    if a != [] && b != [] {
      PairOrder(a[0], b[0], a[0]);
      ArgsTotal(a[1..], b[1..]);
      assert a == [a[0]] + a[1..] && b == [b[0]] + b[1..];
    }
  }

  /** The first pair in which two keys differ decides, by its index, then by its text; else the shorter key is less. */
  lemma {:induction false} ArgsMeaning(a: Args, b: Args)
    ensures ArgsLess(a, b) <==>
            (|a| < |b| && a == b[..|a|]) ||
            exists i :: 0 <= i < |a| && i < |b| && a[..i] == b[..i] &&
                        (a[i].0 < b[i].0 || (a[i].0 == b[i].0 && T.LexLess(a[i].1, b[i].1)))
    decreases |a|
  {
    if a != [] && b != [] {
      ArgsMeaning(a[1..], b[1..]);
      PairOrder(a[0], a[0], a[0]);
      if ArgsLess(a, b) && !PairLess(a[0], b[0]) {
        if |a| < |b| && a[1..] == b[1..][..|a| - 1] {
          assert a == [a[0]] + a[1..] && b[..|a|] == [b[0]] + b[1..][..|a| - 1];
        } else {
          var i :| 0 <= i < |a[1..]| && i < |b[1..]| && a[1..][..i] == b[1..][..i] && PairLess(a[1..][i], b[1..][i]);
          assert a[..i + 1] == [a[0]] + a[1..][..i] && b[..i + 1] == [b[0]] + b[1..][..i];
          assert PairLess(a[i + 1], b[i + 1]);
        }
      }
      if i :| 0 <= i < |a| && i < |b| && a[..i] == b[..i] && PairLess(a[i], b[i]) {
        if i > 0 {
          assert a[0] == a[..i][0] && b[0] == b[..i][0];
          assert a[1..][..i - 1] == a[..i][1..] && b[1..][..i - 1] == b[..i][1..];
          assert PairLess(a[1..][i - 1], b[1..][i - 1]);
        }
      }
      if |a| < |b| && a == b[..|a|] {
        assert a[0] == b[..|a|][0] && a[1..] == b[..|a|][1..] == b[1..][..|a| - 1];
      }
    } else if a == [] && b != [] {
      assert a == b[..0];
    }
  }

  // ---------------------------------------------------------------- the multimap

  datatype Entry = Entry(key: Args, token: Token)

  /** No entry is less than one before it. */
  ghost predicate Ordered(hs: seq<Entry>) {
    forall i, j | 0 <= i < j < |hs| :: !ArgsLess(hs[j].key, hs[i].key)
  }

  /** upper_bound: the place behind all entries that are not greater. */
  function UpperBound(hs: seq<Entry>, k: Args): (n: nat)
    ensures n <= |hs|
    ensures forall i | 0 <= i < n :: !ArgsLess(k, hs[i].key)
    ensures n < |hs| ==> ArgsLess(k, hs[n].key)
  {
    if hs == [] || ArgsLess(k, hs[0].key) then 0 else 1 + UpperBound(hs[1..], k)
  }

  lemma UpperBoundSplits(hs: seq<Entry>, k: Args)
    requires Ordered(hs)
    ensures forall i | UpperBound(hs, k) <= i < |hs| :: ArgsLess(k, hs[i].key)
  {
    var n := UpperBound(hs, k);
    forall i | n <= i < |hs| ensures ArgsLess(k, hs[i].key) {
      if i > n {
        ArgsTotal(hs[n].key, hs[i].key);
        if ArgsLess(hs[n].key, hs[i].key) {
          ArgsTransitive(k, hs[n].key, hs[i].key);
        }
      }
    }
  }

  /** insert: behind the entries of the same key. */
  function Insert(hs: seq<Entry>, e: Entry): seq<Entry> {
    hs[..UpperBound(hs, e.key)] + [e] + hs[UpperBound(hs, e.key)..]
  }

  lemma InsertOrdered(hs: seq<Entry>, e: Entry)
    requires Ordered(hs)
    ensures Ordered(Insert(hs, e))
  {
    var n, r := UpperBound(hs, e.key), Insert(hs, e);
    UpperBoundSplits(hs, e.key);
    forall i, j | 0 <= i < j < |r| ensures !ArgsLess(r[j].key, r[i].key) {
      if i == n {
        var k := hs[j - 1].key;
        if ArgsLess(k, e.key) {
          ArgsTransitive(e.key, k, e.key);
          ArgsIrreflexive(e.key);
        }
      }
    }
  }

  predicate Subscribed(hs: seq<Entry>, t: Token) {
    exists i :: 0 <= i < |hs| && hs[i].token == t
  }

  /** The place a token stands for. */
  function Place(hs: seq<Entry>, t: Token): (n: nat)
    requires Subscribed(hs, t)
    ensures n < |hs| && hs[n].token == t
  {
    if hs[0].token == t then 0
    else
      var i :| 0 <= i < |hs| && hs[i].token == t;
      assert hs[1..][i - 1].token == t;
      1 + Place(hs[1..], t)
  }

  /** erase. */
  function Erase(hs: seq<Entry>, n: nat): seq<Entry>
    requires n < |hs|
  {
    hs[..n] + hs[n + 1..]
  }

  /** The keys in use. */
  ghost function Keys(hs: seq<Entry>): set<Args> {
    set i | 0 <= i < |hs| :: hs[i].key
  }

  predicate HasKey(hs: seq<Entry>, k: Args) {
    exists i :: 0 <= i < |hs| && hs[i].key == k
  }

  lemma KeyIn(hs: seq<Entry>, k: Args)
    ensures HasKey(hs, k) <==> k in Keys(hs)
  {
  }

  lemma InsertKeys(hs: seq<Entry>, e: Entry)
    ensures Keys(Insert(hs, e)) == Keys(hs) + {e.key}
  {
    var n, r := UpperBound(hs, e.key), Insert(hs, e);
    forall i | 0 <= i < |hs| ensures hs[i].key in Keys(r) {
      assert r[if i < n then i else i + 1] == hs[i];
    }
    assert r[n] == e;
  }

  lemma EraseKeys(hs: seq<Entry>, n: nat)
    requires n < |hs|
    ensures Keys(hs) == Keys(Erase(hs, n)) + {hs[n].key}
  {
    var r := Erase(hs, n);
    forall i | 0 <= i < |hs| && i != n ensures hs[i].key in Keys(r) {
      assert r[if i < n then i else i - 1] == hs[i];
    }
  }

  lemma EraseOrdered(hs: seq<Entry>, n: nat)
    requires Ordered(hs) && n < |hs|
    ensures Ordered(Erase(hs, n))
  {
  }

  /** Tokens are given out once. */
  ghost predicate Numbered(hs: seq<Entry>, next: Token) {
    && (forall i | 0 <= i < |hs| :: hs[i].token < next)
    && (forall i, j | 0 <= i < j < |hs| :: hs[i].token != hs[j].token)
  }

  lemma InsertNumbered(hs: seq<Entry>, k: Args, next: Token)
    requires Numbered(hs, next)
    ensures Numbered(Insert(hs, Entry(k, next)), next + 1) && !Subscribed(hs, next)
  {
  }

  lemma EraseNumbered(hs: seq<Entry>, n: nat, next: Token)
    requires Numbered(hs, next) && n < |hs|
    ensures Numbered(Erase(hs, n), next) && !Subscribed(Erase(hs, n), hs[n].token)
  {
  }

  // ---------------------------------------------------------------- rules at the bus

  /** The rules of a signal, one per key. */
  ghost function RulesOf(rule: R.Rule, keys: set<Args>): multiset<R.Rule> {
    multiset(set k | k in keys :: rule.(args := k))
  }

  lemma RulesOnce(rule: R.Rule, keys: set<Args>, r: R.Rule)
    ensures RulesOf(rule, keys)[r] == if r.args in keys && r == rule.(args := r.args) then 1 else 0
  {
    assert forall x | x in keys :: rule.(args := x).args == x;
  }

  lemma RulesOneMore(rule: R.Rule, keys: set<Args>, k: Args)
    ensures k !in keys ==> RulesOf(rule, keys + {k}) == RulesOf(rule, keys) + multiset{rule.(args := k)}
  {
    if k !in keys {
      forall r ensures RulesOf(rule, keys + {k})[r] == (RulesOf(rule, keys) + multiset{rule.(args := k)})[r] {
        RulesOnce(rule, keys, r);
        RulesOnce(rule, keys + {k}, r);
      }
    }
  }

  lemma RulesOneLess(rule: R.Rule, keys: set<Args>, k: Args)
    ensures RulesOf(rule, keys - {k}) == RulesOf(rule, keys) - multiset{rule.(args := k)}
  {
    forall r ensures RulesOf(rule, keys - {k})[r] == (RulesOf(rule, keys) - multiset{rule.(args := k)})[r] {
      RulesOnce(rule, keys, r);
      RulesOnce(rule, keys - {k}, r);
    }
  }

  /** Rules with a type and without apostrophes can be told apart by the text the bus is given. */
  lemma TextsDiffer(a: R.Rule, b: R.Rule)
    requires a.typ != R.Invalid && b.typ != R.Invalid && R.Quotable(a) && R.Quotable(b)
    ensures R.Text(a) == R.Text(b) <==> a == b
  {
    R.TextReadsBack(a);
    R.TextReadsBack(b);
  }

  // ---------------------------------------------------------------- connecting and disconnecting, as values

  /** The handlers of a signal and the rules at the bus.  `bare` - history - are the keys whose rule was refused when
      their first handler came: the handlers are there all the same, and the bus is not asked again. */
  datatype Book = Book(handlers: seq<Entry>, next: Token, bare: set<Args>, rules: multiset<R.Rule>)

  /** `accepts` says whether the bus would comply. */
  datatype Op = Join(key: Args, accepts: bool) | Leave(token: Token, accepts: bool)

  predicate Allowed(b: Book, op: Op) {
    op.Leave? ==> Subscribed(b.handlers, op.token)
  }

  function KeyOf(b: Book, op: Op): Args
    requires Allowed(b, op)
  {
    if op.Join? then op.key else b.handlers[Place(b.handlers, op.token)].key
  }

  function HandlersAfter(b: Book, op: Op): seq<Entry>
    requires Allowed(b, op)
  {
    if op.Join? then Insert(b.handlers, Entry(op.key, b.next)) else Erase(b.handlers, Place(b.handlers, op.token))
  }

  /** The bus is asked for the first handler of a key and for the last. */
  predicate Asks(b: Book, op: Op)
    requires Allowed(b, op)
  {
    !HasKey(if op.Join? then b.handlers else HandlersAfter(b, op), KeyOf(b, op))
  }

  function Step(base: R.Rule, b: Book, op: Op): Book
    requires Allowed(b, op)
  {
    var k := KeyOf(b, op);
    var x := multiset{base.(args := k)};
    Book(HandlersAfter(b, op), if op.Join? then b.next + 1 else b.next,
         if !Asks(b, op) then b.bare else if op.Join? && !op.accepts then b.bare + {k} else b.bare - {k},
         if !Asks(b, op) || !op.accepts then b.rules else if op.Join? then b.rules + x else b.rules - x)
  }

  /** The keys that have their rule, as far as this signal is concerned. */
  ghost function Backed(b: Book): set<Args> {
    Keys(b.handlers) - b.bare
  }

  /** Handlers are in order, tokens are unique, and the bus holds the rules of all keys that are not bare. */
  ghost predicate Sound(base: R.Rule, b: Book) {
    && Ordered(b.handlers) && Numbered(b.handlers, b.next)
    && b.bare <= Keys(b.handlers) && RulesOf(base, Backed(b)) <= b.rules
  }

  /** What the bus holds beyond the rules of the signal. */
  ghost function Others(base: R.Rule, b: Book): multiset<R.Rule> {
    b.rules - RulesOf(base, Backed(b))
  }

  lemma StepKeys(base: R.Rule, b: Book, op: Op)
    requires Allowed(b, op)
    ensures var k, c := KeyOf(b, op), Step(base, b, op);
            && (op.Join? ==> Keys(c.handlers) == Keys(b.handlers) + {k})
            && (op.Leave? && Asks(b, op) ==> k in Keys(b.handlers) && Keys(c.handlers) == Keys(b.handlers) - {k})
            && (op.Leave? && !Asks(b, op) ==> Keys(c.handlers) == Keys(b.handlers))
            && (op.Join? ==> (Asks(b, op) <==> k !in Keys(b.handlers)))
  {
    var k := KeyOf(b, op);
    if op.Join? {
      KeyIn(b.handlers, k);
      InsertKeys(b.handlers, Entry(k, b.next));
    } else {
      KeyIn(HandlersAfter(b, op), k);
      EraseKeys(b.handlers, Place(b.handlers, op.token));
    }
  }

  /** The keys with a rule: the key asked for joins them or goes, no other. */
  lemma StepBacked(base: R.Rule, b: Book, op: Op)
    requires Allowed(b, op) && b.bare <= Keys(b.handlers)
    ensures var k, c := KeyOf(b, op), Step(base, b, op);
            && c.bare <= Keys(c.handlers)
            && Backed(c) == (if !Asks(b, op) then Backed(b)
                             else if op.Join? && op.accepts then Backed(b) + {k} else Backed(b) - {k})
            && (op.Join? && Asks(b, op) ==> k !in Backed(b))
  {
    StepKeys(base, b, op);
  }

  lemma StepOrdered(base: R.Rule, b: Book, op: Op)
    requires Ordered(b.handlers) && Numbered(b.handlers, b.next) && Allowed(b, op)
    ensures var c := Step(base, b, op); Ordered(c.handlers) && Numbered(c.handlers, c.next)
    ensures if op.Join? then !Subscribed(b.handlers, b.next) else !Subscribed(HandlersAfter(b, op), op.token)
  {
    if op.Join? {
      InsertOrdered(b.handlers, Entry(op.key, b.next));
      InsertNumbered(b.handlers, op.key, b.next);
    } else {
      EraseOrdered(b.handlers, Place(b.handlers, op.token));
      EraseNumbered(b.handlers, Place(b.handlers, op.token), b.next);
    }
  }

  /** The last handler of a bare key goes: the bus is asked to take a rule away that it never got. */
  predicate Stray(b: Book, op: Op)
    requires Allowed(b, op)
  {
    op.Leave? && Asks(b, op) && KeyOf(b, op) in b.bare && op.accepts
  }

  /** The last handler of any other key goes, and the bus does not let its rule go. */
  predicate Leaks(b: Book, op: Op)
    requires Allowed(b, op)
  {
    op.Leave? && Asks(b, op) && KeyOf(b, op) !in b.bare && !op.accepts
  }

  /** The rules of the signal: the one asked for is added or gone, no other. */
  lemma StepHeld(base: R.Rule, b: Book, op: Op)
    requires Allowed(b, op) && b.bare <= Keys(b.handlers)
    ensures var k, c := KeyOf(b, op), Step(base, b, op);
            var x, held := base.(args := k), RulesOf(base, Backed(b));
            && c.bare <= Keys(c.handlers) && held[x] == (if k in Backed(b) then 1 else 0)
            && RulesOf(base, Backed(c)) == (if !Asks(b, op) then held
                                            else if op.Join? && op.accepts then held + multiset{x}
                                            else held - multiset{x})
            && (Asks(b, op) && op.Join? ==> k !in Backed(b))
            && (Asks(b, op) && op.Leave? ==> (k in Backed(b) <==> k !in b.bare))
  {
    var k := KeyOf(b, op);
    var x := base.(args := k);
    StepBacked(base, b, op);
    StepKeys(base, b, op);
    assert x.args == k;
    RulesOnce(base, Backed(b), x);
    RulesOneMore(base, Backed(b), k);
    RulesOneLess(base, Backed(b), k);
  }

  /** Every step keeps the book sound.  It leaves the other rules at the bus alone except in two cases. */
  lemma StepSound(base: R.Rule, b: Book, op: Op)
    requires Sound(base, b) && Allowed(b, op)
    ensures Sound(base, Step(base, b, op))
    ensures var x := multiset{base.(args := KeyOf(b, op))};
            Others(base, Step(base, b, op)) ==
            if Stray(b, op) then Others(base, b) - x
            else if Leaks(b, op) then Others(base, b) + x else Others(base, b)
  {
    StepOrdered(base, b, op);
    StepHeld(base, b, op);
    var x := base.(args := KeyOf(b, op));
    BothMove(b.rules, RulesOf(base, Backed(b)), x);
  }

  /** A step as the source takes it, and that it may be taken. */
  lemma Joins(base: R.Rule, b: Book, k: Args, accepts: bool, c: Book)
    requires Sound(base, b)
    requires c.handlers == Insert(b.handlers, Entry(k, b.next)) && c.next == b.next + 1
    requires c.bare == (if HasKey(b.handlers, k) then b.bare else if accepts then b.bare - {k} else b.bare + {k})
    requires c.rules == if HasKey(b.handlers, k) || !accepts then b.rules else b.rules + multiset{base.(args := k)}
    ensures c == Step(base, b, Join(k, accepts)) && Sound(base, c) && !Subscribed(b.handlers, b.next)
    ensures Others(base, c) == Others(base, b)
  {
    StepSound(base, b, Join(k, accepts));
    StepOrdered(base, b, Join(k, accepts));
  }

  lemma Leaves(base: R.Rule, b: Book, t: Token, accepts: bool, c: Book)
    requires Sound(base, b) && Subscribed(b.handlers, t)
    requires c.handlers == Erase(b.handlers, Place(b.handlers, t)) && c.next == b.next
    requires var k := b.handlers[Place(b.handlers, t)].key;
             if HasKey(c.handlers, k) then c.bare == b.bare && c.rules == b.rules
             else c.bare == b.bare - {k} && c.rules == if accepts then b.rules - multiset{base.(args := k)} else b.rules
    ensures c == Step(base, b, Leave(t, accepts)) && Sound(base, c) && !Subscribed(c.handlers, t)
    ensures Asks(b, Leave(t, accepts)) <==> !HasKey(c.handlers, b.handlers[Place(b.handlers, t)].key)
  {
    StepSound(base, b, Leave(t, accepts));
    StepOrdered(base, b, Leave(t, accepts));
  }

  lemma BothMove<X>(rules: multiset<X>, held: multiset<X>, x: X)
    requires held <= rules
    ensures held + multiset{x} <= rules + multiset{x}
    ensures (rules + multiset{x}) - (held + multiset{x}) == rules - held
    ensures held[x] == 0 ==>
              held - multiset{x} == held && held <= rules - multiset{x} &&
              (rules - multiset{x}) - held == (rules - held) - multiset{x}
    ensures held[x] > 0 ==>
              held - multiset{x} <= rules - multiset{x} &&
              (rules - multiset{x}) - (held - multiset{x}) == rules - held &&
              rules - (held - multiset{x}) == (rules - held) + multiset{x}
  {
  }

  // ---------------------------------------------------------------- runs

  predicate Possible(base: R.Rule, b: Book, ops: seq<Op>)
    decreases |ops|
  {
    ops == [] || (Allowed(b, ops[0]) && Possible(base, Step(base, b, ops[0]), ops[1..]))
  }

  function After(base: R.Rule, b: Book, ops: seq<Op>): Book
    requires Possible(base, b, ops)
    decreases |ops|
  {
    if ops == [] then b else After(base, Step(base, b, ops[0]), ops[1..])
  }

  lemma {:induction false} RunSound(base: R.Rule, b: Book, ops: seq<Op>)
    requires Sound(base, b) && Possible(base, b, ops)
    ensures Sound(base, After(base, b, ops))
    decreases |ops|
  {
    if ops != [] {
      StepSound(base, b, ops[0]);
      RunSound(base, Step(base, b, ops[0]), ops[1..]);
    }
  }

  /** From here on there is always a handler of this key. */
  predicate InUse(base: R.Rule, b: Book, ops: seq<Op>, k: Args)
    requires Possible(base, b, ops)
    decreases |ops|
  {
    HasKey(b.handlers, k) && (ops == [] || InUse(base, Step(base, b, ops[0]), ops[1..], k))
  }

  /** As long as a key is in use, whoever comes and goes, its rule at the bus stays what it is: there or missing. */
  lemma {:induction false} RuleStays(base: R.Rule, b: Book, ops: seq<Op>, k: Args)
    requires Possible(base, b, ops) && InUse(base, b, ops, k)
    ensures var c, r := After(base, b, ops), base.(args := k);
            HasKey(c.handlers, k) && c.rules[r] == b.rules[r] && (k in c.bare <==> k in b.bare)
    decreases |ops|
  {
    if ops != [] {
      var c := Step(base, b, ops[0]);
      assert HasKey(c.handlers, k);
      assert base.(args := k).args == k && base.(args := KeyOf(b, ops[0])).args == KeyOf(b, ops[0]);
      RuleStays(base, c, ops[1..], k);
    }
  }

  /** The first handler of a key is connected.  Then, as long as the key is in use and whatever else is connected and
      disconnected, the bus has one rule more of this form exactly if it accepted it at that first time. */
  lemma RuleIffAccepted(base: R.Rule, b: Book, k: Args, accepts: bool, ops: seq<Op>)
    requires !HasKey(b.handlers, k)
    requires Possible(base, b, [Join(k, accepts)] + ops)
    requires InUse(base, Step(base, b, Join(k, accepts)), ops, k)
    ensures var c := After(base, b, [Join(k, accepts)] + ops);
            HasKey(c.handlers, k) && c.rules[base.(args := k)] == b.rules[base.(args := k)] + if accepts then 1 else 0
  {
    assert ([Join(k, accepts)] + ops)[1..] == ops;
    RuleStays(base, Step(base, b, Join(k, accepts)), ops, k);
  }

  /** Refused once, a key stays without its rule when it is connected again at a bus that would accept. */
  lemma RefusedThenConnected(base: R.Rule, k: Args)
    ensures var b := Step(base, Step(base, Book([], 0, {}, multiset{}), Join(k, false)), Join(k, true));
            b.handlers == [Entry(k, 0), Entry(k, 1)] && b.rules == multiset{} && b.bare == {k}
  {
    var b := Step(base, Book([], 0, {}, multiset{}), Join(k, false));
    assert b.handlers == [Entry(k, 0)];
    ArgsIrreflexive(k);
    assert b.handlers[0].key == k && b.handlers[1..] == [];
  }

  /** When the handler whose rule was refused goes, an equal rule of somebody else is taken away. */
  lemma ForeignRuleLost(base: R.Rule, k: Args)
    ensures var r := multiset{base.(args := k)};
            var b := Step(base, Book([], 0, {}, r), Join(k, false));
            && b.handlers == [Entry(k, 0)] && b.rules == r && b.bare == {k}
            && Allowed(b, Leave(0, true)) && Step(base, b, Leave(0, true)) == Book([], 1, {}, multiset{})
  {
    var r := multiset{base.(args := k)};
    var b := Step(base, Book([], 0, {}, r), Join(k, false));
    assert b.handlers == [Entry(k, 0)];
    assert b.handlers[0].token == 0;
    assert HandlersAfter(b, Leave(0, true)) == [];
  }

  /** Nobody else has rules of this form at the bus. */
  ghost predicate Alone(base: R.Rule, b: Book) {
    Sound(base, b) && forall k: Args :: Others(base, b)[base.(args := k)] == 0
  }

  /** That is lost exactly when the removal of a rule that was there is refused. */
  lemma StepAlone(base: R.Rule, b: Book, op: Op)
    requires Alone(base, b) && Allowed(b, op)
    ensures Alone(base, Step(base, b, op)) <==> !Leaks(b, op)
  {
    var c := Step(base, b, op);
    StepSound(base, b, op);
    assert Others(base, c)[base.(args := KeyOf(b, op))] > 0 <==> Leaks(b, op);
  }

  lemma AloneExact(base: R.Rule, b: Book, k: Args)
    requires Alone(base, b)
    ensures b.rules[base.(args := k)] == if k in Backed(b) then 1 else 0
  {
    RulesOnce(base, Backed(b), base.(args := k));
    assert base.(args := k).args == k;
    assert Others(base, b)[base.(args := k)] == 0;
  }

  /** No removal is refused. */
  predicate Complied(ops: seq<Op>) {
    forall i | 0 <= i < |ops| :: ops[i].Leave? ==> ops[i].accepts
  }

  lemma {:induction false} RunAlone(base: R.Rule, b: Book, ops: seq<Op>)
    requires Alone(base, b) && Possible(base, b, ops) && Complied(ops)
    ensures Alone(base, After(base, b, ops))
    decreases |ops|
  {
    if ops != [] {
      assert Complied(ops[1..]);
      StepAlone(base, b, ops[0]);
      RunAlone(base, Step(base, b, ops[0]), ops[1..]);
    }
  }

  /** Until a removal is refused, the bus holds exactly the rules of the keys that are not bare. */
  lemma RunExact(base: R.Rule, b: Book, ops: seq<Op>, k: Args)
    requires Alone(base, b) && Possible(base, b, ops) && Complied(ops)
    ensures var c := After(base, b, ops); c.rules[base.(args := k)] == if k in Backed(c) then 1 else 0
  {
    RunAlone(base, b, ops);
    AloneExact(base, After(base, b, ops), k);
  }

  /** The rules a bus holds for its clients. */
  class Bus {
    var rules: multiset<R.Rule>

    constructor ()
      ensures rules == multiset{}
    {
      rules := multiset{};
    }

    /** `accepts` says whether the bus complies; it throws otherwise. */
    method AddMatch(r: R.Rule, accepts: bool) returns (ok: bool)
      modifies this
      ensures ok == accepts && rules == if ok then old(rules) + multiset{r} else old(rules)
    {
      ok := accepts;
      if ok { rules := rules + multiset{r}; }
    }

    /** The bus takes one equal rule away, if there is one. */
    method RemoveMatch(r: R.Rule, accepts: bool) returns (ok: bool)
      modifies this
      ensures ok == accepts && rules == if ok then old(rules) - multiset{r} else old(rules)
    {
      ok := accepts;
      if ok { rules := rules - multiset{r}; }
    }
  }

  // ---------------------------------------------------------------- the signal

  class Signal {
    const bus: Bus
    const sender: string  // the name of the service, which fills it in
    const path: string  // of the object, which fills it in
    var rule: R.Rule
    var handlers: seq<Entry>
    var nextToken: Token
    ghost var bare: set<Args>  // as in Book
    var calls: seq<(Token, T.Val)>  // into the application

    /** What all rules of this signal have in common. */
    ghost function Base(): R.Rule
      reads this
    {
      rule.(sender := sender, path := path, args := [])
    }

    ghost function Now(): Book
      reads this, bus
    {
      Book(handlers, nextToken, bare, bus.rules)
    }

    ghost predicate Valid()
      reads this, bus
    {
      Sound(Base(), Now())
    }

    constructor (bus: Bus, sender: string, path: string, interface: string, name: string)
      ensures this.bus == bus && Valid() && Now() == Book([], 0, {}, bus.rules) && calls == []
      ensures Base() == R.Rule(R.Signal, sender, interface, name, path, [])
    {
      this.bus, this.sender, this.path := bus, sender, path;
      rule := R.Rule(R.Signal, "", interface, name, "/", []);
      handlers, nextToken, bare, calls := [], 0, {}, [];
    }

    /** connect_with_match_args; `args` is called on the stored rule and changes it.  Where the bus does not accept a
        new rule, the exception comes after the handler has been inserted. */
    method Connect(matchArgs: Args, accepts: bool) returns (r: Option<Token>)
      requires Valid()
      modifies `handlers, `nextToken, `bare, `rule, bus
      ensures Valid() && Base() == old(Base())
      ensures Now() == Step(Base(), old(Now()), Join(matchArgs, accepts))
      ensures r == if accepts || HasKey(old(handlers), matchArgs) then Some(old(nextToken)) else None
      ensures !Subscribed(old(handlers), old(nextToken))
      ensures Others(Base(), Now()) == old(Others(Base(), Now()))
    {
      ghost var base, before := Base(), Now();
      var newEntry := !HasKey(handlers, matchArgs);
      var token := nextToken;
      nextToken := nextToken + 1;
      handlers := Insert(handlers, Entry(matchArgs, token));
      var ok := true;
      if newEntry {
        rule := rule.(args := matchArgs);
        bare := if accepts then bare - {matchArgs} else bare + {matchArgs};
        ok := bus.AddMatch(rule.(sender := sender, path := path), accepts);
      }
      assert Base() == base;
      Joins(base, before, matchArgs, accepts, Now());
      assert Valid();
      return if ok then Some(token) else None;
    }

    /** disconnect.  Where the bus does not let a rule go, the handler is gone all the same and the rule stays. */
    method Disconnect(token: Token, accepts: bool) returns (ok: bool)
      requires Valid() && Subscribed(handlers, token)
      modifies `handlers, `bare, `rule, bus
      ensures Valid() && Base() == old(Base())
      ensures Now() == Step(Base(), old(Now()), Leave(token, accepts)) && !Subscribed(handlers, token)
      ensures ok <==> accepts || !Asks(old(Now()), Leave(token, accepts))
    {
      ghost var base, before := Base(), Now();
      var n := Place(handlers, token);
      var matchArgs := handlers[n].key;
      handlers := Erase(handlers, n);
      ok := true;
      if !HasKey(handlers, matchArgs) {
        rule := rule.(args := matchArgs);
        bare := bare - {matchArgs};
        ok := bus.RemoveMatch(rule.(sender := sender, path := path), accepts);
      }
      Leaves(base, before, token, accepts, Now());
    }

    /** The destructor: from one key to the next by upper_bound.  `refused` are the keys whose rules the bus does not
        let go, which the loop does not mind.  `visited` is history. */
    method Destroy(refused: set<Args>) returns (ghost visited: seq<Args>)
      requires Valid()
      modifies `rule, bus
      ensures bus.rules == old(bus.rules) - old(RulesOf(Base(), Keys(handlers) - refused))
      ensures forall k :: k in visited <==> k in Keys(old(handlers))
      ensures forall i, j | 0 <= i < j < |visited| :: visited[i] != visited[j]
    {
      visited := [];
      var it := 0;
      ghost var base := Base();
      NothingWalked(base, handlers, refused);
      while it < |handlers|
        invariant it <= |handlers| && Base() == base
        invariant Walked(handlers, it, visited)
        invariant bus.rules == old(bus.rules) - RulesOf(base, Keys(handlers[..it]) - refused)
      {
        var k := handlers[it].key;
        NextKey(handlers, it, visited);
        NextRule(base, Keys(handlers[..it]), refused, k, old(bus.rules));
        rule := rule.(args := k);
        var ok := bus.RemoveMatch(rule.(sender := sender, path := path), k !in refused);
        visited := visited + [k];
        it := UpperBound(handlers, k);
      }
      assert handlers[..it] == handlers;
    }

    /** operator(): a message arrives.  `failing` are the handlers that throw std::runtime_error when called; `ok` is
        false where an exception is caught and only reported, which ends the loop. */
    method Dispatch(ty: T.Ty, items: seq<M.Item>, failing: set<Token>) returns (ok: bool)
      modifies this`calls
      ensures var value := C.Decode(ty, T.Default(ty), items);
              if value == None then !ok && calls == old(calls)
              else
                && (ok <==> Clear(handlers, items, failing) == |handlers|)
                && calls == old(calls) + Called(handlers, items, failing, value.value.0)
    {
      var inp := new M.Reader(items);
      var r := S.DecodeArgument(inp, ty, T.Default(ty));
      if r == None { return false; }
      var value := r.value;
      NoneMet(handlers, items, failing, value, calls);
      for i := 0 to |handlers|
        invariant Underway(old(calls), handlers, i, items, failing, value, calls)
      {
        OneMore(old(calls), handlers, i, items, failing, value, calls);
        var matched := true;
        if handlers[i].key != [] {
          var m := MatchAll(handlers[i].key, items);
          if m == None { return false; }
          matched := m.value;
        }
        if matched {
          calls := calls + [(handlers[i].token, value)];
          if handlers[i].token in failing { return false; }
        }
      }
      AllMet(old(calls), handlers, items, failing, value, calls);
      ok := true;
    }

    /** The loop over match arguments: each one winds a fresh reader forward; a later one may throw after an earlier
        one has failed to match. */
    method MatchAll(args: Args, items: seq<M.Item>) returns (r: Option<bool>)
      ensures r == if Readable(args, items) then Some(Matches(args, items)) else None
    {
      var matched := true;
      for j := 0 to |args|
        invariant forall i | 0 <= i < j :: TextAt(items, args[i].0).Some?
        invariant matched <==> forall i | 0 <= i < j :: TextAt(items, args[i].0) == Some(args[i].1)
      {
        var reader := new M.Reader(items);
        Wind(reader, args[j].0);
        TextInFront(items, args[j].0);
        var text := reader.Pop(T.Str);
        if text == None {
          assert TextAt(items, args[j].0) == None;
          return None;
        }
        if args[j].1 != text.value.s {
          matched := false;
          continue;
        }
      }
      r := Some(matched);
    }

    method Wind(reader: M.Reader, index: nat)
      modifies reader
      ensures reader.rest == Drop(old(reader.rest), index)
    {
      var i := 0;
      while i < index && reader.Type() != M.INVALID
        invariant i <= index && Drop(reader.rest, index - i) == Drop(old(reader.rest), index)
        decreases index - i
      {
        reader.Skip();
        i := i + 1;
      }
    }
  }

  // ---------------------------------------------------------------- matching by arguments

  function Drop<X>(s: seq<X>, n: nat): seq<X> {
    if n <= |s| then s[n..] else []
  }

  /** The n-th argument of a message, if it is a string. */
  function TextAt(items: seq<M.Item>, n: nat): Option<string> {
    if n < |items| && M.TypeCode(items[n]) == 's' then Some(M.FromWire(T.Str, items[n].prim).s) else None
  }

  /** Every index names a string argument. */
  predicate Readable(args: Args, items: seq<M.Item>) {
    forall i | 0 <= i < |args| :: TextAt(items, args[i].0).Some?
  }

  /** What a rule with these arguments asks of a message. */
  predicate Matches(args: Args, items: seq<M.Item>) {
    forall i | 0 <= i < |args| :: TextAt(items, args[i].0) == Some(args[i].1)
  }

  lemma TextInFront(items: seq<M.Item>, n: nat)
    ensures M.PopSpec(T.Str, Drop(items, n)) == match TextAt(items, n) case Some(s) => Some(T.Text(s)) case None => None
  {
  }

  /** Nothing is thrown for this handler. */
  predicate Smooth(h: Entry, items: seq<M.Item>, failing: set<Token>) {
    Readable(h.key, items) && (Matches(h.key, items) ==> h.token !in failing)
  }

  /** How many handlers come before the first one for which something is thrown: an index of it names no string, or it
      is called and fails. */
  function Clear(hs: seq<Entry>, items: seq<M.Item>, failing: set<Token>): (n: nat)
    ensures n <= |hs|
    ensures forall i | 0 <= i < n :: Smooth(hs[i], items, failing)
    ensures n < |hs| ==> !Smooth(hs[n], items, failing)
  {
    if hs == [] || !Smooth(hs[0], items, failing) then 0 else 1 + Clear(hs[1..], items, failing)
  }

  /** The calls a message leads to: those that match up to there, and the one that fails. */
  function Called(hs: seq<Entry>, items: seq<M.Item>, failing: set<Token>, value: T.Val): seq<(Token, T.Val)> {
    var n := Clear(hs, items, failing);
    Passed(hs[..n], items, value) + if n < |hs| && Readable(hs[n].key, items) then [(hs[n].token, value)] else []
  }

  /** The handlers whose arguments all match, in their order, each with the value. */
  function Passed(hs: seq<Entry>, items: seq<M.Item>, value: T.Val): seq<(Token, T.Val)> {
    if hs == [] then []
    else (if Matches(hs[0].key, items) then [(hs[0].token, value)] else []) + Passed(hs[1..], items, value)
  }

  lemma {:induction false} PassedConcat(a: seq<Entry>, b: seq<Entry>, items: seq<M.Item>, value: T.Val)
    ensures Passed(a + b, items, value) == Passed(a, items, value) + Passed(b, items, value)
    decreases |a|
  {
    if a == [] {
      assert a + b == b;
    } else {
      assert (a + b)[1..] == a[1..] + b;
      PassedConcat(a[1..], b, items, value);
      Group(if Matches(a[0].key, items) then [(a[0].token, value)] else [],
            Passed(a[1..], items, value), Passed(b, items, value));
    }
  }

  lemma PassedSnoc(hs: seq<Entry>, i: nat, items: seq<M.Item>, value: T.Val)
    requires i < |hs|
    ensures Passed(hs[..i + 1], items, value) ==
            Passed(hs[..i], items, value) + if Matches(hs[i].key, items) then [(hs[i].token, value)] else []
  {
    TakeSnoc(hs, i);
    PassedConcat(hs[..i], [hs[i]], items, value);
    assert [hs[i]][1..] == [];
  }

  lemma PassedStep(calls: seq<(Token, T.Val)>, hs: seq<Entry>, i: nat, items: seq<M.Item>, value: T.Val)
    requires i < |hs|
    ensures var met := calls + Passed(hs[..i], items, value);
            calls + Passed(hs[..i + 1], items, value) ==
            if Matches(hs[i].key, items) then met + [(hs[i].token, value)] else met
  {
    PassedSnoc(hs, i, items, value);
    Group(calls, Passed(hs[..i], items, value), if Matches(hs[i].key, items) then [(hs[i].token, value)] else []);
  }

  /** The first i handlers have been dealt with and nothing was thrown. */
  ghost predicate Underway(before: seq<(Token, T.Val)>, hs: seq<Entry>, i: nat, items: seq<M.Item>, failing: set<Token>,
                           value: T.Val, calls: seq<(Token, T.Val)>) {
    i <= Clear(hs, items, failing) && calls == before + Passed(hs[..i], items, value)
  }

  lemma NoneMet(hs: seq<Entry>, items: seq<M.Item>, failing: set<Token>, value: T.Val, calls: seq<(Token, T.Val)>)
    ensures Underway(calls, hs, 0, items, failing, value, calls)
  {
  }

  /** What the next handler may lead to. */
  lemma OneMore(before: seq<(Token, T.Val)>, hs: seq<Entry>, i: nat, items: seq<M.Item>, failing: set<Token>,
                value: T.Val, calls: seq<(Token, T.Val)>)
    requires i < |hs| && Underway(before, hs, i, items, failing, value, calls)
    ensures var h := hs[i];
            var more := calls + [(h.token, value)];
            if !Readable(h.key, items) then
              Clear(hs, items, failing) == i && calls == before + Called(hs, items, failing, value)
            else if !Matches(h.key, items) then Underway(before, hs, i + 1, items, failing, value, calls)
            else if h.token !in failing then Underway(before, hs, i + 1, items, failing, value, more)
            else Clear(hs, items, failing) == i && more == before + Called(hs, items, failing, value)
  {
    PassedStep(before, hs, i, items, value);
    Group(before, Passed(hs[..i], items, value), if Readable(hs[i].key, items) then [(hs[i].token, value)] else []);
  }

  lemma AllMet(before: seq<(Token, T.Val)>, hs: seq<Entry>, items: seq<M.Item>, failing: set<Token>, value: T.Val,
               calls: seq<(Token, T.Val)>)
    requires Underway(before, hs, |hs|, items, failing, value, calls)
    ensures Clear(hs, items, failing) == |hs| && calls == before + Called(hs, items, failing, value)
  {
    assert hs[..|hs|] == hs;
    assert Called(hs, items, failing, value) == Passed(hs, items, value);
  }

  /** The argument at this place is a string; it is this string. */
  predicate StringAt(items: seq<M.Item>, n: nat) {
    n < |items| && items[n].Basic? && items[n].prim.code == 's'
  }

  predicate SaysAt(items: seq<M.Item>, n: nat, s: string) {
    StringAt(items, n) && items[n].prim.value == T.Text(s)
  }

  lemma ArgumentMeaning(args: Args, items: seq<M.Item>)
    ensures Readable(args, items) <==> forall i | 0 <= i < |args| :: StringAt(items, args[i].0)
    ensures Matches(args, items) <==> forall i | 0 <= i < |args| :: SaysAt(items, args[i].0, args[i].1)
  {
    forall i | 0 <= i < |args|
      ensures TextAt(items, args[i].0).Some? <==> StringAt(items, args[i].0)
      ensures TextAt(items, args[i].0) == Some(args[i].1) <==> SaysAt(items, args[i].0, args[i].1)
    {
      TextMeaning(items, args[i].0, args[i].1);
    }
  }

  lemma TextMeaning(items: seq<M.Item>, n: nat, s: string)
    ensures TextAt(items, n).Some? <==> StringAt(items, n)
    ensures TextAt(items, n) == Some(s) <==> SaysAt(items, n, s)
  {
    if n < |items| && items[n].Basic? {
      assert M.PrimOk(items[n].prim);
    }
  }

  /** A handler one of whose arguments is no string stops the dispatch: nobody from there on is called. */
  lemma UnreadableStops(hs: seq<Entry>, items: seq<M.Item>, failing: set<Token>, value: T.Val, n: nat, i: nat)
    requires n < |hs| && i < |hs[n].key| && !StringAt(items, hs[n].key[i].0)
    ensures Clear(hs, items, failing) <= n
    ensures forall x | x in Called(hs, items, failing, value) :: exists j :: 0 <= j < n && x == (hs[j].token, value)
  {
    ArgumentMeaning(hs[n].key, items);
    StopsBefore(hs, items, failing, value, n);
  }

  /** A handler that is called and throws is the last one. */
  lemma FailureStops(hs: seq<Entry>, items: seq<M.Item>, failing: set<Token>, value: T.Val, n: nat)
    requires n < |hs| && hs[n].token in failing
    requires forall i | 0 <= i < |hs[n].key| :: SaysAt(items, hs[n].key[i].0, hs[n].key[i].1)
    ensures Clear(hs, items, failing) <= n
    ensures forall x | x in Called(hs, items, failing, value) :: exists j :: 0 <= j <= n && x == (hs[j].token, value)
  {
    ArgumentMeaning(hs[n].key, items);
    StopsBefore(hs, items, failing, value, n);
  }

  lemma StopsBefore(hs: seq<Entry>, items: seq<M.Item>, failing: set<Token>, value: T.Val, n: nat)
    requires n < |hs| && !Smooth(hs[n], items, failing)
    ensures Clear(hs, items, failing) <= n
    ensures forall x | x in Called(hs, items, failing, value) ::
              exists j :: 0 <= j <= n && (j == n ==> Readable(hs[n].key, items)) && x == (hs[j].token, value)
  {
    var m := Clear(hs, items, failing);
    forall x | x in Called(hs, items, failing, value)
      ensures exists j :: 0 <= j <= n && (j == n ==> Readable(hs[n].key, items)) && x == (hs[j].token, value)
    {
      if x in Passed(hs[..m], items, value) {
        var j := PassedMember(hs[..m], items, value, x);
        assert hs[..m][j] == hs[j];
      } else {
        assert x == (hs[m].token, value);
      }
    }
  }

  lemma {:induction false} PassedMember(hs: seq<Entry>, items: seq<M.Item>, value: T.Val, x: (Token, T.Val))
    returns (j: nat)
    requires x in Passed(hs, items, value)
    ensures j < |hs| && x == (hs[j].token, value)
  {
    if x == (hs[0].token, value) {
      j := 0;
    } else {
      var k := PassedMember(hs[1..], items, value, x);
      j := k + 1;
    }
  }

  lemma {:induction false} NonePass(hs: seq<Entry>, items: seq<M.Item>, value: T.Val)
    ensures Passed(hs, items, value) == [] <==> forall i | 0 <= i < |hs| :: !Matches(hs[i].key, items)
  {
    if hs != [] {
      NonePass(hs[1..], items, value);
      assert Passed(hs, items, value) == [] ==> !Matches(hs[0].key, items) && Passed(hs[1..], items, value) == [];
      assert forall i | 0 < i < |hs| :: hs[1..][i - 1] == hs[i];
    }
  }

  /** Dispatch is the filter of all handlers by their match arguments exactly when no handler behind the first one for
      which something is thrown matches. */
  lemma CalledIsFilter(hs: seq<Entry>, items: seq<M.Item>, failing: set<Token>, value: T.Val)
    ensures Called(hs, items, failing, value) == Passed(hs, items, value) <==>
            forall i | Clear(hs, items, failing) < i < |hs| :: !Matches(hs[i].key, items)
  {
    var n := Clear(hs, items, failing);
    if n == |hs| {
      assert hs[..|hs|] == hs;
    } else {
      PassedSnoc(hs, n, items, value);
      assert Called(hs, items, failing, value) == Passed(hs[..n + 1], items, value);
      assert hs == hs[..n + 1] + hs[n + 1..];
      PassedConcat(hs[..n + 1], hs[n + 1..], items, value);
      NonePass(hs[n + 1..], items, value);
      assert forall i | n < i < |hs| :: hs[n + 1..][i - n - 1] == hs[i];
    }
  }

  /** The walk over the keys has come to `it`: it has visited the keys before once each and stands behind all entries
      of those. */
  ghost predicate Walked(hs: seq<Entry>, it: nat, visited: seq<Args>)
    requires it <= |hs|
  {
    && (forall k :: k in visited <==> k in Keys(hs[..it]))
    && (forall i, j | 0 <= i < j < |visited| :: visited[i] != visited[j])
    && (forall k | k in visited :: UpperBound(hs, k) <= it)
  }

  lemma NothingWalked(base: R.Rule, hs: seq<Entry>, refused: set<Args>)
    ensures Walked(hs, 0, []) && RulesOf(base, Keys(hs[..0]) - refused) == multiset{}
  {
  }

  lemma NextRule(base: R.Rule, keys: set<Args>, refused: set<Args>, k: Args, rules: multiset<R.Rule>)
    requires k !in keys
    ensures rules - RulesOf(base, keys + {k} - refused) ==
            (rules - RulesOf(base, keys - refused)) - if k in refused then multiset{} else multiset{base.(args := k)}
  {
    forall r
      ensures (rules - RulesOf(base, keys + {k} - refused))[r] ==
              ((rules - RulesOf(base, keys - refused))
               - if k in refused then multiset{} else multiset{base.(args := k)})[r]
    {
      RulesOnce(base, keys + {k} - refused, r);
      RulesOnce(base, keys - refused, r);
    }
  }

  /** What a destroyed signal leaves at the bus: the rules of others, and its own that the bus did not let go; rules
      equal to those that bare keys never got are taken away. */
  lemma DestroyedOthers(base: R.Rule, b: Book, refused: set<Args>)
    requires Sound(base, b)
    ensures b.rules - RulesOf(base, Keys(b.handlers) - refused) ==
            Others(base, b) + RulesOf(base, Backed(b) * refused) - RulesOf(base, b.bare - refused)
  {
    forall r
      ensures (b.rules - RulesOf(base, Keys(b.handlers) - refused))[r] ==
              (Others(base, b) + RulesOf(base, Backed(b) * refused) - RulesOf(base, b.bare - refused))[r]
    {
      RulesOnce(base, Keys(b.handlers) - refused, r);
      RulesOnce(base, Backed(b), r);
      RulesOnce(base, Backed(b) * refused, r);
      RulesOnce(base, b.bare - refused, r);
    }
  }

  /** From `it` to the upper bound of the key there, there is that key only. */
  lemma SameKeyTill(hs: seq<Entry>, it: nat)
    requires Ordered(hs) && it < |hs|
    ensures it < UpperBound(hs, hs[it].key)
    ensures forall i | it <= i < UpperBound(hs, hs[it].key) :: hs[i].key == hs[it].key
  {
    var k := hs[it].key;
    ArgsIrreflexive(k);
    UpperBoundSplits(hs, k);
    forall i | it <= i < UpperBound(hs, k) ensures hs[i].key == k {
      ArgsTotal(hs[i].key, k);
    }
  }

  lemma KeysTill(hs: seq<Entry>, it: nat, n: nat, k: Args)
    requires it < n <= |hs| && forall i | it <= i < n :: hs[i].key == k
    ensures Keys(hs[..n]) == Keys(hs[..it]) + {k}
  {
    forall x | x in Keys(hs[..it]) + {k} ensures x in Keys(hs[..n]) {
      if x == k {
        assert hs[..n][it].key == k;
      } else {
        var i :| 0 <= i < it && hs[..it][i].key == x;
        assert hs[..n][i].key == x;
      }
    }
    forall x | x in Keys(hs[..n]) ensures x in Keys(hs[..it]) + {k} {
      var i :| 0 <= i < n && hs[..n][i].key == x;
      if i < it {
        assert hs[..it][i].key == x;
      }
    }
  }

  lemma NextKey(hs: seq<Entry>, it: nat, visited: seq<Args>)
    requires Ordered(hs) && it < |hs| && Walked(hs, it, visited)
    ensures var k := hs[it].key;
            var n := UpperBound(hs, k);
            && it < n && k !in Keys(hs[..it])
            && Keys(hs[..n]) == Keys(hs[..it]) + {k}
            && Walked(hs, n, visited + [k])
  {
    var k := hs[it].key;
    SameKeyTill(hs, it);
    KeysTill(hs, it, UpperBound(hs, k), k);
    WalkedOn(hs, it, UpperBound(hs, k), visited, k);
  }

  lemma WalkedOn(hs: seq<Entry>, it: nat, n: nat, visited: seq<Args>, k: Args)
    requires it < n <= |hs| && Walked(hs, it, visited)
    requires UpperBound(hs, k) == n && Keys(hs[..n]) == Keys(hs[..it]) + {k}
    ensures k !in Keys(hs[..it]) && Walked(hs, n, visited + [k])
  {
    assert k !in visited;
  }
}
