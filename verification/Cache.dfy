/**
 ThreadSafeLifetimeConstrainedCache (include/core/dbus/lifetime_constrained_cache.h:41-111) and its use by make_signal
 (include/core/dbus/impl/signal.h:78-108).  A cached value is not kept alive; when its last reference is gone its
 destructor calls, one by one, the removals that insertions have connected to it.

 Keys and values are opaque names.  Every step takes the cache's mutex once, so any interleaving of threads is a
 sequence of steps; losing the last reference and each removal called by the destructor are steps of their own.
 */
module Cache {
  import opened Wrappers

  type Key = int
  type Value = nat

  /** `live` values have references left; `hooks` are the removals still connected to a value, oldest first. */
  datatype State = State(cache: map<Key, Value>, live: set<Value>, hooks: map<Value, seq<Key>>)

  const EMPTY := State(map[], {}, map[])

  datatype Step =
    | Create(v: Value)
    | Insert(k: Key, v: Value)
    | DropLast(v: Value)
    | FireOne(v: Value)
    | Remove(k: Key)

  /** What retrieve_value_for_key gives: a weak reference whose value is gone locks to nothing. */
  function Retrieved(s: State, k: Key): Option<Value> {
    if k in s.cache && s.cache[k] in s.live then Some(s.cache[k]) else None
  }

  predicate Enabled(s: State, e: Step) {
    match e
    case Create(v) => v !in s.hooks
    case Insert(_, v) => v in s.live && v in s.hooks
    case DropLast(v) => v in s.live
    case FireOne(v) => v !in s.live && v in s.hooks && s.hooks[v] != []
    case Remove(_) => true
  }

  function Apply(s: State, e: Step): State
    requires Enabled(s, e)
  {
    match e
    case Create(v) => s.(live := s.live + {v}, hooks := s.hooks[v := []])
    case Insert(k, v) =>
      if k in s.cache then s else s.(cache := s.cache[k := v], hooks := s.hooks[v := s.hooks[v] + [k]])
    case DropLast(v) => s.(live := s.live - {v})
    case FireOne(v) => s.(cache := s.cache - {s.hooks[v][0]}, hooks := s.hooks[v := s.hooks[v][1..]])
    case Remove(k) => s.(cache := s.cache - {k})
  }

  /** An entry k -> v is there exactly while a removal of k is connected to v and has not been called yet. */
  ghost predicate Paired(s: State) {
    && (forall k, v :: k in s.cache && s.cache[k] == v <==> v in s.hooks && k in s.hooks[v])
    && (forall v, i, j | v in s.hooks && 0 <= i < j < |s.hooks[v]| :: s.hooks[v][i] != s.hooks[v][j])
    && s.live <= s.hooks.Keys
  }

  lemma InsertPaired(s: State, k: Key, v: Value)
    requires Paired(s) && Enabled(s, Insert(k, v))
    ensures Paired(Apply(s, Insert(k, v)))
  {
    if k !in s.cache {
      assert k !in s.hooks[v];
    }
  }

  /** A value's destructor only takes its own entries away. */
  lemma FirePaired(s: State, v: Value)
    requires Paired(s) && Enabled(s, FireOne(v))
    ensures Paired(Apply(s, FireOne(v)))
    ensures s.hooks[v][0] in s.cache && s.cache[s.hooks[v][0]] == v
  {
    var k := s.hooks[v][0];
    assert k in s.hooks[v];
    assert s.cache[k] == v;
    forall x | x in s.hooks[v][1..] ensures x in s.hooks[v] && x != k {
      var i :| 0 <= i < |s.hooks[v][1..]| && s.hooks[v][1..][i] == x;
      assert s.hooks[v][i + 1] == x;
    }
    forall x | x in s.hooks[v] && x != k ensures x in s.hooks[v][1..] {
      var i :| 0 <= i < |s.hooks[v]| && s.hooks[v][i] == x;
      assert s.hooks[v][1..][i - 1] == x;
    }
  }

  lemma StepPaired(s: State, e: Step)
    requires Paired(s) && Enabled(s, e) && !e.Remove?
    ensures Paired(Apply(s, e))
  {
    match e
    case Insert(k, v) => InsertPaired(s, k, v);
    case FireOne(v) => FirePaired(s, v);
    case Create(v) =>
    case DropLast(_) =>
  }

  predicate Possible(s: State, es: seq<Step>)
    decreases |es|
  {
    es == [] || (Enabled(s, es[0]) && Possible(Apply(s, es[0]), es[1..]))
  }

  function After(s: State, es: seq<Step>): State
    requires Possible(s, es)
    decreases |es|
  {
    if es == [] then s else After(Apply(s, es[0]), es[1..])
  }

  predicate NoRemove(es: seq<Step>) {
    forall i | 0 <= i < |es| :: !es[i].Remove?
  }

  lemma {:induction false} RunPaired(s: State, es: seq<Step>)
    requires Paired(s) && Possible(s, es) && NoRemove(es)
    ensures Paired(After(s, es))
    decreases |es|
  {
    if es != [] {
      StepPaired(s, es[0]);
      assert forall i | 0 <= i < |es[1..]| :: es[1..][i] == es[i + 1];
      RunPaired(Apply(s, es[0]), es[1..]);
    }
  }

  /**
   In every interleaving without an explicit removal: the entries are exactly the pending removals, what is retrieved
   is alive, and a value whose destructor is through has no entry.
   */
  lemma EntriesFollowLifetimes(es: seq<Step>, k: Key, v: Value)
    requires Possible(EMPTY, es) && NoRemove(es)
    ensures var s := After(EMPTY, es);
            && (k in s.cache && s.cache[k] == v <==> v in s.hooks && k in s.hooks[v])
            && (Retrieved(s, k) == Some(v) <==> v in s.live && v in s.hooks && k in s.hooks[v])
            && (v in s.hooks && s.hooks[v] == [] ==> forall x | x in s.cache :: s.cache[x] != v)
  {
    RunPaired(EMPTY, es);
  }

  /** An explicit removal keeps entries and pending removals together exactly when it has nothing to remove. */
  lemma RemovalKeepsPairs(s: State, k: Key)
    requires Paired(s)
    ensures Paired(Apply(s, Remove(k))) <==> k !in s.cache
  {
    var t := Apply(s, Remove(k));
    if k in s.cache {
      var v := s.cache[k];
      assert v in s.hooks && k in s.hooks[v] && k !in t.cache;
    } else {
      assert s.cache - {k} == s.cache;
    }
  }

  lemma Prepend(s: State, e: Step, es: seq<Step>)
    requires Enabled(s, e) && Possible(Apply(s, e), es)
    ensures Possible(s, [e] + es) && After(s, [e] + es) == After(Apply(s, e), es)
  {
    assert ([e] + es)[1..] == es;
  }

  /** What goes wrong then: the destructor of a value removed by hand takes the entry of its successor away. */
  lemma RemovalLosesEntry(k: Key) returns (es: seq<Step>)
    ensures Possible(EMPTY, es)
    ensures var s := After(EMPTY, es); 1 in s.live && 1 in s.hooks && k in s.hooks[1] && Retrieved(s, k) == None
  {
    var s1 := Apply(EMPTY, Create(0));
    var s2 := Apply(s1, Insert(k, 0));
    var s3 := Apply(s2, Remove(k));
    var s4 := Apply(s3, Create(1));
    var s5 := Apply(s4, Insert(k, 1));
    var s6 := Apply(s5, DropLast(0));
    assert s6.hooks[0] == [k] && s6.hooks[1] == [k] && s6.live == {1};
    var s7 := Apply(s6, FireOne(0));
    assert s7.hooks[1] == [k] && k !in s7.cache;
    es := [];
    Prepend(s6, FireOne(0), es); es := [FireOne(0)] + es;
    Prepend(s5, DropLast(0), es); es := [DropLast(0)] + es;
    Prepend(s4, Insert(k, 1), es); es := [Insert(k, 1)] + es;
    Prepend(s3, Create(1), es); es := [Create(1)] + es;
    Prepend(s2, Remove(k), es); es := [Remove(k)] + es;
    Prepend(s1, Insert(k, 0), es); es := [Insert(k, 0)] + es;
    Prepend(EMPTY, Create(0), es); es := [Create(0)] + es;
  }

  // ---------------------------------------------------------------- two racing callers of make_signal

  /** Where a caller has got to.  `found` is what it retrieved, `signal` what it holds, `accepted` whether the cache
      took the value it made, and `late` - history - whether the other caller's had been taken before it looked. */
  datatype Caller = Caller(looked: bool, found: Option<Value>, signal: Option<Value>, put: bool, accepted: bool,
                           late: bool)

  const IDLE := Caller(false, None, None, false, false, false)

  /** A caller is done when it has found a live value or has offered its own. */
  predicate Done(c: Caller) {
    c.looked && (c.found.Some? || c.put)
  }

  datatype World = World(s: State, a: Caller, b: Caller)

  /** `mine` tells the two callers apart; Other is a step of anyone else. */
  datatype Move = Look(mine: bool) | Make(mine: bool, v: Value) | Put(mine: bool) | Other(e: Step)

  function Self(w: World, mine: bool): Caller {
    if mine then w.a else w.b
  }

  function With(w: World, mine: bool, c: Caller, s: State): World {
    if mine then World(s, c, w.b) else World(s, w.a, c)
  }

  predicate Holds(c: Caller, v: Value) {
    c.signal == Some(v)
  }

  /** Others do not remove by hand, drop references that the callers hold, or insert the callers' values. */
  predicate MoveEnabled(w: World, m: Move) {
    match m
    case Look(mine) => !Self(w, mine).looked
    case Make(mine, v) => Self(w, mine).looked && Self(w, mine).signal == None && Enabled(w.s, Create(v))
    case Put(mine) =>
      Self(w, mine).looked && Self(w, mine).found == None && Self(w, mine).signal.Some? && !Self(w, mine).put
    case Other(e) =>
      && Enabled(w.s, e) && !e.Remove?
      && (e.DropLast? || e.Insert? ==> !Holds(w.a, e.v) && !Holds(w.b, e.v))
  }

  /** An enabled move whose insertion the cache can take; MoveKeeps shows that it always can. */
  predicate CanMove(w: World, k: Key, m: Move) {
    MoveEnabled(w, m) && (m.Put? ==> Enabled(w.s, Insert(k, Self(w, m.mine).signal.value)))
  }

  function Moved(w: World, k: Key, m: Move): World
    requires CanMove(w, k, m)
  {
    match m
    case Look(mine) =>
      var r := Retrieved(w.s, k);
      With(w, mine, Caller(true, r, r, false, false, Self(w, !mine).accepted), w.s)
    case Make(mine, v) => With(w, mine, Self(w, mine).(signal := Some(v)), Apply(w.s, Create(v)))
    case Put(mine) =>
      With(w, mine, Self(w, mine).(put := true, accepted := k !in w.s.cache),
           Apply(w.s, Insert(k, Self(w, mine).signal.value)))
    case Other(e) => w.(s := Apply(w.s, e))
  }

  /** What holds of one caller. */
  ghost predicate CallerOk(s: State, k: Key, c: Caller, other: Caller) {
    && (!c.looked ==> c == IDLE)
    && (c.found.Some? ==> c.signal == c.found && !c.put && k in s.cache && s.cache[k] == c.found.value)
    && (c.put ==> c.signal.Some?)
    && (c.accepted ==> c.put)
    && (c.signal.Some? ==> c.signal.value in s.live && c.signal.value in s.hooks)
    && (c.accepted ==> k in s.cache && s.cache[k] == c.signal.value)
    && (c.found == None && c.signal.Some? && !c.accepted ==> s.hooks[c.signal.value] == [])
    && (c.late ==> other.accepted && c.found == other.signal)
    && (c.found == None && c.signal.Some? && c.signal == other.signal ==> other.found.Some? && other.late)
  }

  ghost predicate RaceOk(w: World, k: Key) {
    Paired(w.s) && CallerOk(w.s, k, w.a, w.b) && CallerOk(w.s, k, w.b, w.a)
  }

  lemma MoveKeeps(w: World, k: Key, m: Move)
    requires RaceOk(w, k) && MoveEnabled(w, m)
    ensures CanMove(w, k, m) && RaceOk(Moved(w, k, m), k)
  {
    match m
    case Look(_) =>
    case Make(_, v) => StepPaired(w.s, Create(v));
    case Put(mine) => StepPaired(w.s, Insert(k, Self(w, mine).signal.value));
    case Other(e) =>
      StepPaired(w.s, e);
      if e.FireOne? { FirePaired(w.s, e.v); }
  }

  /** Any interleaving of the moves of the two callers and of others. */
  ghost predicate Race(w: World, k: Key, ms: seq<Move>)
    decreases |ms|
  {
    ms == [] || (CanMove(w, k, ms[0]) && Race(Moved(w, k, ms[0]), k, ms[1..]))
  }

  ghost function Outcome(w: World, k: Key, ms: seq<Move>): World
    requires Race(w, k, ms)
    decreases |ms|
  {
    if ms == [] then w else Outcome(Moved(w, k, ms[0]), k, ms[1..])
  }

  lemma {:induction false} RaceKeeps(w: World, k: Key, ms: seq<Move>)
    requires RaceOk(w, k) && Race(w, k, ms)
    ensures RaceOk(Outcome(w, k, ms), k)
    decreases |ms|
  {
    if ms != [] {
      MoveKeeps(w, k, ms[0]);
      RaceKeeps(Moved(w, k, ms[0]), k, ms[1..]);
    }
  }

  /**
   Two callers of make_signal for one key, in any interleaving with each other and with others: once both are done,
   they hold the same signal exactly when both found a live one, or one of them looked after the cache had taken the
   other's.
   */
  lemma SameSignal(s: State, k: Key, ms: seq<Move>)
    requires Paired(s) && Race(World(s, IDLE, IDLE), k, ms)
    requires Done(Outcome(World(s, IDLE, IDLE), k, ms).a) && Done(Outcome(World(s, IDLE, IDLE), k, ms).b)
    ensures var w := Outcome(World(s, IDLE, IDLE), k, ms);
            && w.a.signal.Some? && w.a.signal.value in w.s.live && w.b.signal.Some? && w.b.signal.value in w.s.live
            && (w.a.signal == w.b.signal <==> (w.a.found.Some? && w.b.found.Some?) || w.a.late || w.b.late)
  {
    RaceKeeps(World(s, IDLE, IDLE), k, ms);
    var w := Outcome(World(s, IDLE, IDLE), k, ms);
    assert CallerOk(w.s, k, w.a, w.b) && CallerOk(w.s, k, w.b, w.a);
  }

  /** Both look first, and each makes a signal of its own. */
  lemma RaceApart(k: Key) returns (ms: seq<Move>)
    ensures Race(World(EMPTY, IDLE, IDLE), k, ms)
    ensures var w := Outcome(World(EMPTY, IDLE, IDLE), k, ms);
            Done(w.a) && Done(w.b) && w.a.signal == Some(0) && w.b.signal == Some(1)
  {
    var w0 := World(EMPTY, IDLE, IDLE);
    var w1 := Moved(w0, k, Look(true));
    var w2 := Moved(w1, k, Look(false));
    var w3 := Moved(w2, k, Make(true, 0));
    var w4 := Moved(w3, k, Make(false, 1));
    var w5 := Moved(w4, k, Put(true));
    ms := [];
    ms := Earlier(w5, k, Put(false), ms);
    ms := Earlier(w4, k, Put(true), ms);
    ms := Earlier(w3, k, Make(false, 1), ms);
    ms := Earlier(w2, k, Make(true, 0), ms);
    ms := Earlier(w1, k, Look(false), ms);
    ms := Earlier(w0, k, Look(true), ms);
  }

  lemma Earlier(w: World, k: Key, m: Move, ms: seq<Move>) returns (r: seq<Move>)
    requires CanMove(w, k, m) && Race(Moved(w, k, m), k, ms)
    ensures r == [m] + ms && Race(w, k, r) && Outcome(w, k, r) == Outcome(Moved(w, k, m), k, ms)
  {
    r := [m] + ms;
    assert r[1..] == ms;
  }

  // ---------------------------------------------------------------- the class

  /** The cache, with the values it refers to: which are alive, and what is connected to their destruction. */
  class LifetimeConstrainedCache {
    var cache: map<Key, Value>
    var live: set<Value>
    var hooks: map<Value, seq<Key>>

    function Now(): State
      reads this
    {
      State(cache, live, hooks)
    }

    constructor ()
      ensures Now() == EMPTY
    {
      cache, live, hooks := map[], {}, map[];
    }

    method RetrieveValueForKey(key: Key) returns (r: Option<Value>)
      ensures r == Retrieved(Now(), key)
    {
      if key !in cache { return None; }
      r := if cache[key] in live then Some(cache[key]) else None;
    }

    /** An entry for the key, expired or not, turns the value away. */
    method InsertValueForKey(key: Key, value: Value) returns (inserted: bool)
      requires Enabled(Now(), Insert(key, value))
      modifies this
      ensures Now() == Apply(old(Now()), Insert(key, value))
      ensures inserted <==> key !in old(cache)
    {
      if key in cache { return false; }
      hooks := hooks[value := hooks[value] + [key]];
      cache := cache[key := value];
      inserted := true;
    }

    method RemoveValueForKey(key: Key)
      modifies this
      ensures Now() == Apply(old(Now()), Remove(key))
    {
      if key in cache {
        cache := cache - {key};
      } else {
        assert cache - {key} == cache;
      }
    }

    method HasValueForKey(key: Key) returns (r: bool)
      ensures r <==> key in Now().cache
    {
      r := key in cache;
    }

    /** One removal called by the destructor of a value. */
    method Fire(value: Value)
      requires Enabled(Now(), FireOne(value))
      modifies this
      ensures Now() == Apply(old(Now()), FireOne(value))
    {
      var key := hooks[value][0];
      hooks := hooks[value := hooks[value][1..]];
      RemoveValueForKey(key);
    }

    /** make_signal, undisturbed by other threads: `made` is the value it creates if it has to. */
    method MakeSignal(key: Key, made: Value) returns (signal: Value)
      requires Paired(Now()) && Enabled(Now(), Create(made))
      modifies this
      ensures Paired(Now()) && signal in live
      ensures signal == match Retrieved(old(Now()), key) case Some(v) => v case None => made
      ensures Retrieved(Now(), key) == Some(signal) <==> (key !in old(cache) || old(cache)[key] in old(live))
    {
      var found := RetrieveValueForKey(key);
      if found.Some? { return found.value; }
      ghost var before := Now();
      StepPaired(before, Create(made));
      live, hooks := live + {made}, hooks[made := []];
      StepPaired(Now(), Insert(key, made));
      signal := made;
      var inserted := InsertValueForKey(key, signal);
    }
  }
}
