/**
 impl::PendingCall (src/core/dbus/pending_call_impl.h:40-211): one reply, for which the thread inside `create`, the
 thread that libdbus calls back on and any number of threads calling `then` compete under one mutex.

 Messages and notifications are opaque names; the notification of the t-th caller of `then` is called t.  libdbus is
 reduced to a pending call that is completed by at most one reply, hands that reply out once, and, when it comes to
 dispatching the completion, calls back if a notification function has been set by then.
 */
module PendingCall {
  import opened Wrappers

  type Message = int
  type Notification = nat

  // ---------------------------------------------------------------- the object

  /** The fields of an instance and the calls it has made into the application. */
  datatype Core = Core(completed: bool, message: Option<Message>, callback: Option<Notification>,
                       calls: seq<(Notification, Message)>)

  const FRESH := Core(false, None, None, [])

  /** What notify_locked amounts to. */
  function Notified(c: Core, m: Message): Core {
    if c.completed then c
    else Core(true, Some(m), c.callback, c.calls + match c.callback case Some(n) => [(n, m)] case None => [])
  }

  /** What then amounts to. */
  function Continued(c: Core, n: Notification): Core {
    Core(c.completed, c.message, Some(n), c.calls + match c.message case Some(m) => [(n, m)] case None => [])
  }

  class PendingCall {
    var completed: bool
    var message: Option<Message>
    var callback: Option<Notification>
    var calls: seq<(Notification, Message)>

    function Fields(): Core
      reads this
    {
      Core(completed, message, callback, calls)
    }

    constructor ()
      ensures Fields() == FRESH
    {
      completed, message, callback, calls := false, None, None, [];
    }

    method NotifyLocked(msg: Message)
      modifies this
      ensures Fields() == Notified(old(Fields()), msg)
    {
      var was := completed;
      completed := true;
      if was { return; }
      message := Some(msg);
      if callback.Some? {
        calls := calls + [(callback.value, msg)];
      }
    }

    method Then(notification: Notification)
      modifies this
      ensures Fields() == Continued(old(Fields()), notification)
    {
      callback := Some(notification);
      if message.Some? {
        calls := calls + [(notification, message.value)];
      }
    }
  }

  // ---------------------------------------------------------------- the protocol

  /** What libdbus knows of the call. */
  datatype Library = Library(reply: Option<Message>, stolen: nat, notify: bool, dispatched: bool, cancelled: bool)

  /** Where the thread inside `create`, or the one inside on_pending_call_completed, has got to. */
  datatype Announcer =
    | Absent
    | Waiting              // for the mutex
    | Arming               // create only: about to set the notification function
    | Checking             // about to ask whether the call has completed
    | Stealing             // about to steal the reply
    | Notifying(m: Message)  // about to exchange the state
    | Storing(m: Message)    // about to store the message
    | Calling(m: Message)    // about to call the callback, if set
    | Leaving              // about to release the mutex
    | Gone

  /** Where a thread inside `then` has got to. */
  datatype Follower = Queued | Installing | Replaying | Finishing | Finished

  datatype Role = Creator | Callback

  datatype Owner = Free | Held(role: Role) | HeldBy(caller: Notification)

  /** `installed` and `known` are history: the notifications in the order of their installation, and how many there
      were when the message was stored. */
  datatype State = State(
    lib: Library,
    mutex: Owner,
    creator: Announcer,
    back: Announcer,
    followers: map<Notification, Follower>,
    failed: bool,
    core: Core,
    installed: seq<Notification>,
    known: nat)

  const START := State(Library(None, 0, false, false, false), Free, Waiting, Absent, map[], false, FRESH, [], 0)

  datatype Event =
    | Reply(m: Message)
    | Dispatch
    | Cancel
    | Enter(role: Role)
    | SetNotify(ok: bool)
    | Check(role: Role)
    | Steal(role: Role)
    | Exchange(role: Role)
    | Store(role: Role)
    | Call(role: Role)
    | Leave(role: Role)
    | Then(n: Notification)
    | Lock(n: Notification)
    | Install(n: Notification)
    | Replay(n: Notification)
    | Unlock(n: Notification)

  function At(s: State, r: Role): Announcer {
    if r == Creator then s.creator else s.back
  }

  function Move(s: State, r: Role, a: Announcer): State {
    if r == Creator then s.(creator := a) else s.(back := a)
  }

  predicate Is(s: State, n: Notification, f: Follower) {
    n in s.followers && s.followers[n] == f
  }

  predicate Enabled(s: State, e: Event) {
    match e
    case Reply(_) => s.lib.reply == None && !s.lib.cancelled
    case Dispatch => s.lib.reply.Some? && !s.lib.dispatched
    case Cancel => s.creator == Gone && !s.failed
    case Enter(r) => At(s, r) == Waiting && s.mutex == Free
    case SetNotify(_) => s.creator == Arming
    case Check(r) => At(s, r) == Checking
    case Steal(r) => At(s, r) == Stealing
    case Exchange(r) => At(s, r).Notifying?
    case Store(r) => At(s, r).Storing?
    case Call(r) => At(s, r).Calling?
    case Leave(r) => At(s, r) == Leaving
    case Then(n) => s.creator == Gone && !s.failed && n !in s.followers
    case Lock(n) => Is(s, n, Queued) && s.mutex == Free
    case Install(n) => Is(s, n, Installing)
    case Replay(n) => Is(s, n, Replaying)
    case Unlock(n) => Is(s, n, Finishing)
  }

  function Apply(s: State, e: Event): State
    requires Enabled(s, e)
  {
    match e
    case Reply(m) => s.(lib := s.lib.(reply := Some(m)))
    case Dispatch => s.(lib := s.lib.(dispatched := true), back := if s.lib.notify then Waiting else s.back)
    case Cancel => s.(lib := s.lib.(cancelled := true))
    case Enter(r) => Move(s, r, if r == Creator then Arming else Checking).(mutex := Held(r))
    case SetNotify(ok) =>
      if ok then s.(lib := s.lib.(notify := true), creator := Checking) else s.(creator := Leaving, failed := true)
    case Check(r) => Move(s, r, if s.lib.reply.Some? then Stealing else Leaving)
    case Steal(r) =>
      // A reply that has been stolen before is gone.
      if s.lib.reply.Some? && s.lib.stolen == 0 then
        Move(s, r, Notifying(s.lib.reply.value)).(lib := s.lib.(stolen := s.lib.stolen + 1))
      else Move(s, r, Leaving)
    case Exchange(r) =>
      Move(s, r, if s.core.completed then Leaving else Storing(At(s, r).m)).(core := s.core.(completed := true))
    case Store(r) =>
      Move(s, r, Calling(At(s, r).m)).(core := s.core.(message := Some(At(s, r).m)), known := |s.installed|)
    case Call(r) =>
      (match s.core.callback
       case Some(n) => Move(s, r, Leaving).(core := s.core.(calls := s.core.calls + [(n, At(s, r).m)]))
       case None => Move(s, r, Leaving))
    case Leave(r) => Move(s, r, Gone).(mutex := Free)
    case Then(n) => s.(followers := s.followers[n := Queued])
    case Lock(n) => s.(followers := s.followers[n := Installing], mutex := HeldBy(n))
    case Install(n) =>
      s.(followers := s.followers[n := Replaying], core := s.core.(callback := Some(n)), installed := s.installed + [n])
    case Replay(n) =>
      (match s.core.message
       case Some(m) => s.(followers := s.followers[n := Finishing], core := s.core.(calls := s.core.calls + [(n, m)]))
       case None => s.(followers := s.followers[n := Finishing]))
    case Unlock(n) => s.(followers := s.followers[n := Finished], mutex := Free)
  }

  // ---------------------------------------------------------------- invariant

  predicate Critical(a: Announcer) {
    a != Absent && a != Waiting && a != Gone
  }

  predicate Inside(f: Follower) {
    f != Queued && f != Finished
  }

  /** The mutex belongs to whoever is inside, and no one calls `then` before `create` has returned. */
  ghost predicate Exclusive(s: State) {
    && (Critical(s.creator) <==> s.mutex == Held(Creator))
    && (Critical(s.back) <==> s.mutex == Held(Callback))
    && (s.mutex.HeldBy? ==> s.mutex.caller in s.followers && Inside(s.followers[s.mutex.caller]))
    && (forall n | n in s.followers && Inside(s.followers[n]) :: s.mutex == HeldBy(n))
    && (s.creator != Gone || s.failed ==> s.followers == map[])
    && s.creator != Absent
    && s.back != Arming
    && (s.back != Absent ==> s.lib.dispatched)
    && (s.failed ==> s.creator == Leaving || s.creator == Gone)
  }

  /** On the way from stealing the reply to storing it; to calling the callback. */
  predicate Carrying(a: Announcer) {
    a.Notifying? || a.Storing?
  }

  predicate Underway(a: Announcer) {
    Carrying(a) || a.Calling?
  }

  /** What a thread inside `create` or the libdbus callback may rely on. */
  ghost predicate Carries(s: State, a: Announcer) {
    && (a == Stealing ==> s.lib.reply.Some?)
    && (Underway(a) ==> s.lib.stolen == 1 && s.lib.reply == Some(a.m))
    && (a.Notifying? ==> !s.core.completed)
    && (a.Storing? ==> s.core.completed && s.core.message == None)
    && (a.Calling? ==> s.core.message == Some(a.m))
  }

  /** The reply is stolen once, by the one who then stores it. */
  ghost predicate Single(s: State) {
    && Carries(s, s.creator) && Carries(s, s.back)
    && s.lib.stolen <= 1
    && (s.lib.stolen == 1 ==> s.lib.reply.Some?)
    && (s.core.completed ==> s.lib.stolen == 1)
    && (s.core.message.Some? ==> s.core.completed && s.core.message == s.lib.reply)
    && (s.lib.stolen == 1 && s.core.message == None ==> Carrying(s.creator) || Carrying(s.back))
  }

  /** A completion that was dispatched reaches someone who will look for the reply. */
  ghost predicate Noticed(s: State) {
    && (s.lib.dispatched ==> s.lib.reply.Some?)
    && (s.back == Leaving || s.back == Gone ==> s.lib.stolen == 1)
    && (s.lib.dispatched && s.back == Absent && s.lib.stolen == 0 ==>
          s.failed || s.creator == Waiting || s.creator == Arming || s.creator == Checking || s.creator == Stealing)
    && (s.lib.notify ==> s.creator != Waiting && s.creator != Arming && !s.failed)
    && (s.creator == Gone && !s.failed ==> s.lib.notify)
    && (s.creator.Leaving? && !s.failed ==> s.lib.notify)
    && (s.creator == Checking || s.creator == Stealing || Underway(s.creator) ==> s.lib.notify)
  }

  /** The calls owed once k of the installed notifications were there to see the reply come. */
  function Owed(installed: seq<Notification>, k: nat, m: Message): seq<(Notification, Message)>
    requires k <= |installed|
  {
    (if k == 0 then [] else [(installed[k - 1], m)]) + Each(installed[k..], m)
  }

  function Each(ns: seq<Notification>, m: Message): seq<(Notification, Message)> {
    seq(|ns|, i requires 0 <= i < |ns| => (ns[i], m))
  }

  /** The caller that has installed its notification and not looked for the message yet. */
  predicate Pending(s: State) {
    s.mutex.HeldBy? && Is(s, s.mutex.caller, Replaying)
  }

  /** Whose notifications are installed. */
  ghost predicate Enrolled(s: State) {
    && (forall n :: n in s.installed <==>
          n in s.followers && s.followers[n] != Queued && s.followers[n] != Installing)
    && (forall i, j | 0 <= i < j < |s.installed| :: s.installed[i] != s.installed[j])
    && s.core.callback == (if s.installed == [] then None else Some(s.installed[|s.installed| - 1]))
    && (Pending(s) ==> s.installed != [] && s.installed[|s.installed| - 1] == s.mutex.caller)
  }

  /** What has been called. */
  ghost predicate Served(s: State) {
    && s.known <= |s.installed|
    && (s.core.message == None ==> s.core.calls == [])
    && (s.core.message.Some? ==>
          if s.creator.Calling? || s.back.Calling? then s.core.calls == [] && s.known == |s.installed|
          else if Pending(s) then
            && s.known < |s.installed|
            && s.core.calls == Owed(s.installed[..|s.installed| - 1], s.known, s.core.message.value)
          else s.core.calls == Owed(s.installed, s.known, s.core.message.value))
  }

  ghost predicate Inv(s: State) {
    Exclusive(s) && Single(s) && Noticed(s) && Enrolled(s) && Served(s)
  }

  /** Events of a thread inside `then`, of libdbus and the application, and of a thread that may announce the reply,
      up to stealing it and from there on. */
  predicate Following(e: Event) {
    e.Then? || e.Lock? || e.Install? || e.Replay? || e.Unlock?
  }

  predicate Outside(e: Event) {
    e.Reply? || e.Dispatch? || e.Cancel?
  }

  predicate Seeking(e: Event) {
    e.Enter? || e.SetNotify? || e.Check? || e.Steal?
  }

  predicate Announcing(e: Event) {
    e.Exchange? || e.Store? || e.Call? || e.Leave?
  }

  lemma FollowingExclusive(s: State, e: Event)
    requires Exclusive(s) && Enabled(s, e) && Following(e)
    ensures Exclusive(Apply(s, e))
  {
  }

  lemma OutsideExclusive(s: State, e: Event)
    requires Exclusive(s) && Enabled(s, e) && Outside(e)
    ensures Exclusive(Apply(s, e))
  {
  }

  lemma SeekingExclusive(s: State, e: Event)
    requires Exclusive(s) && Enabled(s, e) && Seeking(e)
    ensures Exclusive(Apply(s, e))
  {
  }

  lemma AnnouncingExclusive(s: State, e: Event)
    requires Exclusive(s) && Enabled(s, e) && Announcing(e)
    ensures Exclusive(Apply(s, e))
  {
  }

  lemma FollowingSingle(s: State, e: Event)
    requires Exclusive(s) && Single(s) && Enabled(s, e) && Following(e)
    ensures Single(Apply(s, e))
  {
  }

  lemma OutsideSingle(s: State, e: Event)
    requires Exclusive(s) && Single(s) && Enabled(s, e) && Outside(e)
    ensures Single(Apply(s, e))
  {
  }

  lemma SeekingSingle(s: State, e: Event)
    requires Exclusive(s) && Single(s) && Enabled(s, e) && Seeking(e)
    ensures Single(Apply(s, e))
  {
  }

  lemma AnnouncingSingle(s: State, e: Event)
    requires Exclusive(s) && Single(s) && Enabled(s, e) && Announcing(e)
    ensures Single(Apply(s, e))
  {
  }

  lemma FollowingNoticed(s: State, e: Event)
    requires Exclusive(s) && Single(s) && Noticed(s) && Enabled(s, e) && Following(e)
    ensures Noticed(Apply(s, e))
  {
  }

  lemma OutsideNoticed(s: State, e: Event)
    requires Exclusive(s) && Single(s) && Noticed(s) && Enabled(s, e) && Outside(e)
    ensures Noticed(Apply(s, e))
  {
  }

  lemma SeekingNoticed(s: State, e: Event)
    requires Exclusive(s) && Single(s) && Noticed(s) && Enabled(s, e) && Seeking(e)
    ensures Noticed(Apply(s, e))
  {
  }

  lemma AnnouncingNoticed(s: State, e: Event)
    requires Exclusive(s) && Single(s) && Noticed(s) && Enabled(s, e) && Announcing(e)
    ensures Noticed(Apply(s, e))
  {
  }

  lemma SameEnrolled(s: State, t: State)
    requires Enrolled(s)
    requires s.followers == t.followers && s.installed == t.installed && s.core.callback == t.core.callback
    requires Pending(t) ==> t.mutex == s.mutex
    ensures Enrolled(t)
  {
  }

  lemma OutsideEnrolled(s: State, e: Event)
    requires Enrolled(s) && Enabled(s, e) && Outside(e)
    ensures Enrolled(Apply(s, e))
  {
    SameEnrolled(s, Apply(s, e));
  }

  lemma SeekingEnrolled(s: State, e: Event)
    requires Enrolled(s) && Enabled(s, e) && Seeking(e)
    ensures Enrolled(Apply(s, e))
  {
    SameEnrolled(s, Apply(s, e));
  }

  lemma AnnouncingEnrolled(s: State, e: Event)
    requires Enrolled(s) && Enabled(s, e) && Announcing(e)
    ensures Enrolled(Apply(s, e))
  {
    SameEnrolled(s, Apply(s, e));
  }

  lemma InstallEnrolled(s: State, n: Notification)
    requires Exclusive(s) && Enrolled(s) && Enabled(s, Install(n))
    ensures Enrolled(Apply(s, Install(n)))
  {
  }

  lemma FollowingEnrolled(s: State, e: Event)
    requires Exclusive(s) && Enrolled(s) && Enabled(s, e) && Following(e)
    ensures Enrolled(Apply(s, e))
  {
    if e.Install? {
      InstallEnrolled(s, e.n);
    }
  }

  lemma InstallServed(s: State, n: Notification)
    requires Exclusive(s) && Single(s) && Enrolled(s) && Served(s) && Enabled(s, Install(n))
    ensures Served(Apply(s, Install(n)))
  {
    var t := Apply(s, Install(n));
    assert t.installed[..|t.installed| - 1] == s.installed;
  }

  lemma ReplayServed(s: State, n: Notification)
    requires Exclusive(s) && Single(s) && Enrolled(s) && Served(s) && Enabled(s, Replay(n))
    ensures Served(Apply(s, Replay(n)))
  {
    if s.core.message.Some? {
      var k := |s.installed| - 1;
      assert s.installed == s.installed[..k] + [n];
      OwedSnoc(s.installed[..k], n, s.known, s.core.message.value);
    }
  }

  lemma OwedSnoc(installed: seq<Notification>, n: Notification, k: nat, m: Message)
    requires k <= |installed|
    ensures Owed(installed + [n], k, m) == Owed(installed, k, m) + [(n, m)]
  {
    assert (installed + [n])[k..] == installed[k..] + [n];
    assert Each(installed[k..] + [n], m) == Each(installed[k..], m) + [(n, m)];
  }

  lemma FollowingServed(s: State, e: Event)
    requires Exclusive(s) && Single(s) && Enrolled(s) && Served(s) && Enabled(s, e) && Following(e)
    ensures Served(Apply(s, e))
  {
    if e.Install? {
      InstallServed(s, e.n);
    } else if e.Replay? {
      ReplayServed(s, e.n);
    }
  }

  lemma OutsideServed(s: State, e: Event)
    requires Exclusive(s) && Served(s) && Enabled(s, e) && Outside(e)
    ensures Served(Apply(s, e))
  {
  }

  lemma SeekingServed(s: State, e: Event)
    requires Exclusive(s) && Served(s) && Enabled(s, e) && Seeking(e)
    ensures Served(Apply(s, e))
  {
  }

  lemma CallServed(s: State, r: Role)
    requires Exclusive(s) && Single(s) && Enrolled(s) && Served(s) && Enabled(s, Call(r))
    ensures Served(Apply(s, Call(r)))
  {
    var k := |s.installed|;
    assert s.installed[k..] == [];
  }

  lemma AnnouncingServed(s: State, e: Event)
    requires Exclusive(s) && Single(s) && Enrolled(s) && Served(s) && Enabled(s, e) && Announcing(e)
    ensures Served(Apply(s, e))
  {
    if e.Call? {
      CallServed(s, e.role);
    }
  }

  lemma StepKeeps(s: State, e: Event)
    requires Inv(s) && Enabled(s, e)
    ensures Inv(Apply(s, e))
  {
    if Following(e) {
      FollowingExclusive(s, e);
      FollowingSingle(s, e);
      FollowingNoticed(s, e);
      FollowingEnrolled(s, e);
      FollowingServed(s, e);
    } else if Outside(e) {
      OutsideExclusive(s, e);
      OutsideSingle(s, e);
      OutsideNoticed(s, e);
      OutsideEnrolled(s, e);
      OutsideServed(s, e);
    } else if Seeking(e) {
      SeekingExclusive(s, e);
      SeekingSingle(s, e);
      SeekingNoticed(s, e);
      SeekingEnrolled(s, e);
      SeekingServed(s, e);
    } else {
      AnnouncingExclusive(s, e);
      AnnouncingSingle(s, e);
      AnnouncingNoticed(s, e);
      AnnouncingEnrolled(s, e);
      AnnouncingServed(s, e);
    }
  }

  // ---------------------------------------------------------------- runs

  /** A sequence of events that can happen from s on, in any interleaving of the threads. */
  predicate Possible(s: State, es: seq<Event>)
    decreases |es|
  {
    es == [] || (Enabled(s, es[0]) && Possible(Apply(s, es[0]), es[1..]))
  }

  function After(s: State, es: seq<Event>): State
    requires Possible(s, es)
    decreases |es|
  {
    if es == [] then s else After(Apply(s, es[0]), es[1..])
  }

  lemma {:induction false} RunKeeps(s: State, es: seq<Event>)
    requires Inv(s) && Possible(s, es)
    ensures Inv(After(s, es))
    decreases |es|
  {
    if es != [] {
      StepKeeps(s, es[0]);
      RunKeeps(Apply(s, es[0]), es[1..]);
    }
  }

  lemma StartInv()
    ensures Inv(START)
  {
  }

  lemma {:induction false} RunConcat(s: State, es: seq<Event>, fs: seq<Event>)
    requires Possible(s, es + fs)
    ensures Possible(s, es) && Possible(After(s, es), fs) && After(s, es + fs) == After(After(s, es), fs)
    decreases |es|
  {
    if es == [] {
      assert es + fs == fs;
    } else {
      assert (es + fs)[1..] == es[1..] + fs;
      RunConcat(Apply(s, es[0]), es[1..], fs);
    }
  }

  lemma StepStays(s: State, e: Event)
    requires Inv(s) && Enabled(s, e)
    ensures s.core.message.Some? ==> Apply(s, e).core.message == s.core.message
    ensures s.lib.reply.Some? ==> Apply(s, e).lib.reply == s.lib.reply
    ensures s.core.calls <= Apply(s, e).core.calls
    ensures s.lib.stolen <= Apply(s, e).lib.stolen
  {
  }

  lemma {:induction false} RunStays(s: State, es: seq<Event>)
    requires Inv(s) && Possible(s, es)
    ensures var t := After(s, es);
            && (s.core.message.Some? ==> t.core.message == s.core.message)
            && s.core.calls <= t.core.calls
            && s.lib.stolen <= t.lib.stolen
    decreases |es|
  {
    if es != [] {
      StepStays(s, es[0]);
      StepKeeps(s, es[0]);
      RunStays(Apply(s, es[0]), es[1..]);
    }
  }

  /**
   In every interleaving: the reply is stolen at most once, the message is only ever the reply, is set at most once
   and never changes, and calls into the application are never taken back.
   */
  lemma OneReply(es: seq<Event>, fs: seq<Event>)
    requires Possible(START, es + fs)
    ensures Possible(START, es)
    ensures var s, t := After(START, es), After(START, es + fs);
            && t.lib.stolen <= 1
            && (s.core.message.Some? ==> s.core.message == s.lib.reply && t.core.message == s.core.message)
            && s.core.calls <= t.core.calls
  {
    StartInv();
    RunConcat(START, es, fs);
    RunKeeps(START, es);
    RunKeeps(START, es + fs);
    RunStays(After(START, es), fs);
  }

  lemma OwedOnce(installed: seq<Notification>, k: nat, m: Message)
    requires k <= |installed| && forall i, j | 0 <= i < j < |installed| :: installed[i] != installed[j]
    ensures var o := Owed(installed, k, m);
            && |o| == |installed| - k + (if k == 0 then 0 else 1)
            && forall i | 0 <= i < |o| :: o[i] == (installed[|installed| - |o| + i], m)
  {
    var o := Owed(installed, k, m);
    forall i | 0 <= i < |o| ensures o[i] == (installed[|installed| - |o| + i], m) {
      if k > 0 && i > 0 {
        assert o[i] == Each(installed[k..], m)[i - 1];
      }
    }
  }

  /** In every interleaving, each notification is called at most once, and with the reply. */
  lemma CalledOnce(es: seq<Event>)
    requires Possible(START, es)
    ensures var s := After(START, es);
            && (forall i | 0 <= i < |s.core.calls| ::
                  s.lib.reply == Some(s.core.calls[i].1) && s.core.calls[i].0 in s.installed)
            && (forall i, j | 0 <= i < j < |s.core.calls| :: s.core.calls[i].0 != s.core.calls[j].0)
  {
    StartInv();
    RunKeeps(START, es);
    CallsDiffer(After(START, es));
  }

  lemma CallsDiffer(s: State)
    requires Single(s) && Enrolled(s) && Served(s)
    ensures forall i | 0 <= i < |s.core.calls| ::
              s.lib.reply == Some(s.core.calls[i].1) && s.core.calls[i].0 in s.installed
    ensures forall i, j | 0 <= i < j < |s.core.calls| :: s.core.calls[i].0 != s.core.calls[j].0
  {
    if s.core.calls != [] {
      var m := s.core.message.value;
      var seen := if Pending(s) then s.installed[..|s.installed| - 1] else s.installed;
      OwedOnce(seen, s.known, m);
      assert s.core.calls == Owed(seen, s.known, m);
    }
  }

  /** All threads have run to their end. */
  ghost predicate Resting(s: State) {
    && s.creator == Gone
    && (s.back == Absent || s.back == Gone)
    && forall n | n in s.followers :: s.followers[n] == Finished
  }

  /**
   At rest, every caller of `then` has installed its notification.  If the completion has been dispatched, and `create`
   has not thrown, the reply has been stolen.  If it has, by whomever, it is stored, and from the notification in place
   when it was stored onward, every installed notification has been called with it exactly once, in the order of
   installation; those replaced before have not been called.  If it has not, nothing is stored and nobody called.
   */
  lemma Delivered(es: seq<Event>)
    requires Possible(START, es) && Resting(After(START, es))
    ensures var s := After(START, es);
            && (forall n :: n in s.followers <==> n in s.installed)
            && (s.lib.dispatched && !s.failed ==> s.lib.stolen == 1)
            && if s.lib.stolen == 1 then
                 && s.core.message == s.lib.reply && s.core.message.Some?
                 && s.known <= |s.installed|
                 && s.core.calls == Owed(s.installed, s.known, s.lib.reply.value)
               else s.lib.stolen == 0 && s.core.message == None && s.core.calls == []
  {
    StartInv();
    RunKeeps(START, es);
  }

  /** So the last notification installed is the last one called, and is called exactly once. */
  lemma LastIsCalled(es: seq<Event>)
    requires Possible(START, es) && Resting(After(START, es))
    requires After(START, es).lib.stolen == 1 && After(START, es).installed != []
    ensures var s := After(START, es);
            var last := s.installed[|s.installed| - 1];
            var n := |s.core.calls|;
            && s.lib.reply.Some? && n > 0
            && s.core.calls[n - 1] == (last, s.lib.reply.value)
            && forall i | 0 <= i < n - 1 :: s.core.calls[i].0 != last
  {
    Delivered(es);
    CalledOnce(es);
    var s := After(START, es);
    RunKeeps(START, es) by { StartInv(); }
    OwedOnce(s.installed, s.known, s.lib.reply.value);
  }

  // ---------------------------------------------------------------- progress

  /** A thread of the protocol, as opposed to libdbus or the application, takes a step. */
  predicate Inner(e: Event) {
    !e.Reply? && !e.Dispatch? && !e.Cancel? && !e.Then?
  }

  function RoleStep(r: Role, a: Announcer): Event
    requires Critical(a)
  {
    match a
    case Arming => SetNotify(true)
    case Checking => Check(r)
    case Stealing => Steal(r)
    case Notifying(_) => Exchange(r)
    case Storing(_) => Store(r)
    case Calling(_) => Call(r)
    case Leaving => Leave(r)
  }

  function FollowerStep(n: Notification, f: Follower): Event
    requires Inside(f)
  {
    match f
    case Installing => Install(n)
    case Replaying => Replay(n)
    case Finishing => Unlock(n)
  }

  /** There is no deadlock: until all threads have run to their end, one of them can take a step. */
  lemma NoDeadlock(es: seq<Event>) returns (e: Event)
    requires Possible(START, es) && !Resting(After(START, es))
    ensures Inner(e) && Enabled(After(START, es), e)
  {
    StartInv();
    RunKeeps(START, es);
    var s := After(START, es);
    match s.mutex
    case Held(Creator) => e := RoleStep(Creator, s.creator);
    case Held(Callback) => e := RoleStep(Callback, s.back);
    case HeldBy(n) => e := FollowerStep(n, s.followers[n]);
    case Free =>
      if s.creator == Waiting {
        e := Enter(Creator);
      } else if s.back == Waiting {
        e := Enter(Callback);
      } else {
        var n :| n in s.followers && s.followers[n] != Finished;
        e := Lock(n);
      }
  }

  /** How many steps a thread has left at most. */
  function Left(a: Announcer): nat {
    match a
    case Absent => 9
    case Waiting => 8
    case Arming => 7
    case Checking => 6
    case Stealing => 5
    case Notifying(_) => 4
    case Storing(_) => 3
    case Calling(_) => 2
    case Leaving => 1
    case Gone => 0
  }

  function ToGo(f: Follower): nat {
    match f
    case Queued => 4
    case Installing => 3
    case Replaying => 2
    case Finishing => 1
    case Finished => 0
  }

  /** Every step of a thread brings that thread nearer to its end and no thread further from it. */
  lemma StepsEnd(s: State, e: Event)
    requires Enabled(s, e) && Inner(e)
    ensures var t := Apply(s, e);
            && Left(t.creator) <= Left(s.creator) && Left(t.back) <= Left(s.back)
            && t.followers.Keys == s.followers.Keys
            && (forall n | n in s.followers :: ToGo(t.followers[n]) <= ToGo(s.followers[n]))
            && (Left(t.creator) < Left(s.creator) || Left(t.back) < Left(s.back) ||
                exists n :: n in s.followers && ToGo(t.followers[n]) < ToGo(s.followers[n]))
  {
    if Following(e) {
      FollowersEnd(s, e);
    } else {
      AnnouncersEnd(s, e);
    }
  }

  lemma AnnouncersEnd(s: State, e: Event)
    requires Enabled(s, e) && Inner(e) && !Following(e)
    ensures var t := Apply(s, e);
            && t.followers == s.followers
            && Left(t.creator) <= Left(s.creator) && Left(t.back) <= Left(s.back)
            && (Left(t.creator) < Left(s.creator) || Left(t.back) < Left(s.back))
  {
  }

  lemma FollowersEnd(s: State, e: Event)
    requires Enabled(s, e) && Inner(e) && Following(e)
    ensures var t := Apply(s, e);
            && t.creator == s.creator && t.back == s.back
            && t.followers.Keys == s.followers.Keys
            && (forall n | n in s.followers :: ToGo(t.followers[n]) <= ToGo(s.followers[n]))
            && e.n in s.followers && ToGo(t.followers[e.n]) < ToGo(s.followers[e.n])
  {
  }

  // ---------------------------------------------------------------- the steps and the methods

  /** The fields change only by a step of the thread that holds the mutex. */
  lemma OnlyHolderWrites(s: State, e: Event)
    requires Inv(s) && Enabled(s, e) && Apply(s, e).core != s.core
    ensures s.mutex == match e
                       case Exchange(r) => Held(r)
                       case Store(r) => Held(r)
                       case Call(r) => Held(r)
                       case Install(n) => HeldBy(n)
                       case Replay(n) => HeldBy(n)
                       case _ => Free
  {
  }

  /** The three steps that announce a reply are notify_locked. */
  lemma StepsNotify(s: State, r: Role)
    requires Inv(s) && At(s, r).Notifying?
    ensures Possible(s, [Exchange(r), Store(r), Call(r)])
    ensures After(s, [Exchange(r), Store(r), Call(r)]).core == Notified(s.core, At(s, r).m)
  {
    var es := [Exchange(r), Store(r), Call(r)];
    var s1 := Apply(s, Exchange(r));
    var s2 := Apply(s1, Store(r));
    assert es[1..] == [Store(r), Call(r)] && es[1..][1..] == [Call(r)] && es[1..][1..][1..] == [];
    assert Possible(s2, [Call(r)]);
    assert Possible(s1, [Store(r), Call(r)]);
    assert After(s, es) == After(s1, es[1..]) == After(s2, [Call(r)]) == Apply(s2, Call(r));
    assert s.core.callback == None ==> s.core.calls + [] == s.core.calls;
  }

  /** The two steps of a caller of `then` are the method. */
  lemma StepsContinue(s: State, n: Notification)
    requires Inv(s) && Is(s, n, Installing)
    ensures Possible(s, [Install(n), Replay(n)])
    ensures After(s, [Install(n), Replay(n)]).core == Continued(s.core, n)
  {
    var es := [Install(n), Replay(n)];
    var s1 := Apply(s, Install(n));
    assert es[1..] == [Replay(n)] && es[1..][1..] == [];
    assert Possible(s1, [Replay(n)]);
    assert After(s, es) == After(s1, [Replay(n)]) == Apply(s1, Replay(n));
    assert s.core.message == None ==> s.core.calls + [] == s.core.calls;
  }
}
