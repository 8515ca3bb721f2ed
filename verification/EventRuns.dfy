/** Runs of the event loop: iterations of `ril_event_loop` in which callbacks, and other threads
    between the mutex sections, add and delete watches and arm fresh timers. */
module EventRuns {
  import opened TimeVals
  import opened EventSpec
  import opened Wrappers

  /** What `ril_event_set` stores in an event. */
  datatype Attr = Attr(fd: int, persist: bool)

  /** The event module's state, with the history of its timers: `armed` maps every timer ever armed
      to its deadline, `due` maps every timer taken off the timer list to the clock value then, and
      `fired` lists the timers whose callback has been called, in order. */
  datatype Sys<E> = Sys(
    attrs: map<E, Attr>,
    fds: Fds<E>,
    timers: seq<Entry<E>>,
    pending: seq<E>,
    armed: map<E, TimeVal>,
    due: map<E, TimeVal>,
    fired: seq<E>
  )

  datatype Action<E> =
    | Set(ev: E, fd: int, persist: bool)
    | Add(ev: E)
    | Del(ev: E)
    | Arm(ev: E, now: TimeVal, tv: TimeVal)

  /** What the module asks of its callers: an event in use is not set again, a watched event or
      descriptor is not watched twice, and a timer event is armed once. */
  ghost predicate Allowed<E>(s: Sys<E>, a: Action<E>) {
    match a
    case Set(ev, _, _) => !Watched(s.fds.table, ev) && ev !in s.pending && ev !in s.armed
    case Add(ev) =>
      && ev in s.attrs && ev !in s.armed
      && s.attrs[ev].fd >= 0 && !WatchedFd(s.fds.table, s.attrs[ev].fd) && !Watched(s.fds.table, ev)
    case Del(ev) => ev in s.attrs
    case Arm(ev, now, tv) =>
      && ev in s.attrs && ev !in s.armed && !Watched(s.fds.table, ev) && ev !in s.pending
      && Normal(now) && Normal(tv)
  }

  /** The effect of an allowed call; other calls are outside the contract and do nothing here. */
  ghost function Perform<E>(s: Sys<E>, a: Action<E>): (t: Sys<E>)
    ensures t.pending == s.pending && t.fired == s.fired && t.due == s.due
    ensures forall ev :: ev in s.armed ==> ev in t.armed && t.armed[ev] == s.armed[ev]
    ensures forall ev :: ev in s.pending && ev in t.armed ==> ev in s.armed
  {
    if !Allowed(s, a) then s else
    match a
    case Set(ev, fd, persist) => s.(attrs := s.attrs[ev := Attr(fd, persist)])
    case Add(ev) => s.(fds := AddWatch(s.fds, Watch(ev, s.attrs[ev].fd, s.attrs[ev].persist)))
    case Del(ev) => s.(fds := DeleteWatch(s.fds, ev))
    case Arm(ev, now, tv) =>
      var deadline := TimerAdd(now, tv);
      s.(attrs := s.attrs[ev := s.attrs[ev].(fd := -1)],
         timers := InsertTimer(s.timers, Entry(ev, deadline)),
         armed := s.armed[ev := deadline])
  }

  ghost function PerformAll<E>(s: Sys<E>, actions: seq<Action<E>>): (t: Sys<E>)
    ensures t.pending == s.pending && t.fired == s.fired && t.due == s.due
    ensures forall ev :: ev in s.armed ==> ev in t.armed && t.armed[ev] == s.armed[ev]
    ensures forall ev :: ev in s.pending && ev in t.armed ==> ev in s.armed
    decreases |actions|
  {
    if actions == [] then s else PerformAll(Perform(s, actions[0]), actions[1..])
  }

  function Events<E>(timers: seq<Entry<E>>): (r: seq<E>)
    ensures |r| == |timers|
  {
    seq(|timers|, i requires 0 <= i < |timers| => timers[i].ev)
  }

  ghost function Stamped<E>(evs: seq<E>, now: TimeVal): (m: map<E, TimeVal>)
    ensures forall ev :: ev in m ==> ev in evs
    ensures forall ev :: ev in evs ==> ev in m && m[ev] == now
  {
    map ev | ev in evs :: now
  }

  /** `processTimeouts` at clock value `now`. */
  ghost function Timeouts<E>(s: Sys<E>, now: TimeVal): Sys<E> {
    var n := CountBefore(s.timers, now);
    var out := Events(s.timers[..n]);
    s.(timers := s.timers[n..], pending := s.pending + out,
       due := s.due + Stamped(out, now))
  }

  /** `processReadReadies` on what `select` reported. */
  ghost function Readies<E>(s: Sys<E>, rfds: set<int>): Sys<E> {
    var r := ReadiesFrom(s.fds, rfds, |rfds|, 0);
    s.(fds := r.0, pending := s.pending + r.1)
  }

  /** One turn of `firePending`: unlink the first event and call its function. */
  ghost function FireOne<E>(s: Sys<E>): Sys<E>
    requires s.pending != []
  {
    var ev := s.pending[0];
    s.(pending := s.pending[1..], fired := if ev in s.armed then s.fired + [ev] else s.fired)
  }

  ghost function FireAll<E>(s: Sys<E>, callbacks: seq<seq<Action<E>>>): Sys<E>
    decreases |s.pending|
  {
    if s.pending == [] then s
    else if callbacks == [] then FireAll(FireOne(s), [])
    else FireAll(PerformAll(FireOne(s), callbacks[0]), callbacks[1..])
  }

  datatype Selected = Interrupted | Ready(rfds: set<int>)

  /** One pass through the loop: the clock when it computes its wait, what is called while it sleeps in
      `select`, the outcome of `select`, the clock at the timeout check, what is called between the two
      checks, and what each callback (and any thread meanwhile) calls. */
  datatype Iteration<E> = Iteration(
    top: TimeVal,
    asleep: seq<Action<E>>,
    selected: Selected,
    now: TimeVal,
    between: seq<Action<E>>,
    callbacks: seq<seq<Action<E>>>
  )

  ghost function Checked<E>(s: Sys<E>, it: Iteration<E>): Sys<E>
    requires it.selected.Ready?
  {
    Readies(PerformAll(Timeouts(PerformAll(s, it.asleep), it.now), it.between), it.selected.rfds)
  }

  ghost function Iterate<E>(s: Sys<E>, it: Iteration<E>): Sys<E> {
    if it.selected.Interrupted? then PerformAll(s, it.asleep)
    else FireAll(Checked(s, it), it.callbacks)
  }

  ghost function Run<E>(s: Sys<E>, its: seq<Iteration<E>>): Sys<E> {
    if its == [] then s else Iterate(Run(s, its[..|its| - 1]), its[|its| - 1])
  }

  // ---- what callers may do ----

  ghost predicate LegalAll<E>(s: Sys<E>, actions: seq<Action<E>>)
    decreases |actions|
  {
    actions != [] ==> Allowed(s, actions[0]) && LegalAll(Perform(s, actions[0]), actions[1..])
  }

  /** What the callbacks of one `firePending` do: the first script goes with the first event fired;
      callbacks beyond the scripts do nothing. */
  ghost predicate LegalFire<E>(s: Sys<E>, callbacks: seq<seq<Action<E>>>)
    decreases |callbacks|
  {
    s.pending != [] && callbacks != [] ==>
      LegalAll(FireOne(s), callbacks[0]) && LegalFire(PerformAll(FireOne(s), callbacks[0]), callbacks[1..])
  }

  ghost predicate LegalIteration<E>(s: Sys<E>, it: Iteration<E>) {
    && LegalAll(s, it.asleep)
    && (it.selected.Ready? ==>
          && LegalAll(Timeouts(PerformAll(s, it.asleep), it.now), it.between)
          && LegalFire(Checked(s, it), it.callbacks))
  }

  ghost predicate LegalRun<E>(s: Sys<E>, its: seq<Iteration<E>>) {
    forall i :: 0 <= i < |its| ==> LegalIteration(Run(s, its[..i]), its[i])
  }

  // ---- the invariant ----

  ghost predicate Distinct<E>(s: seq<E>) {
    forall i, j :: 0 <= i < j < |s| ==> s[i] != s[j]
  }

  ghost predicate IsWaiting<E>(s: Sys<E>, ev: E) {
    ev in Events(s.timers)
  }

  /** The timer list is sorted, holds no event twice, and carries the deadlines the timers were armed with. */
  ghost predicate TimersInv<E>(s: Sys<E>) {
    && Sorted(s.timers) && AllNormal(s.timers)
    && Distinct(Events(s.timers))
    && forall i :: 0 <= i < |s.timers| ==> s.timers[i].ev in s.armed && s.armed[s.timers[i].ev] == s.timers[i].deadline
  }

  /** Watched events are no timers, and are watched as they were set. */
  ghost predicate WatchInv<E>(s: Sys<E>) {
    && FdsInv(s.fds)
    && forall i :: 0 <= i < |s.fds.table| && s.fds.table[i].Some? ==>
         var w := s.fds.table[i].value;
         w.ev in s.attrs && s.attrs[w.ev] == Attr(w.fd, w.persist) && w.ev !in s.armed
  }

  /** In how many of the timer list, the pending list and the fired list a timer is. */
  ghost function Places<E>(s: Sys<E>, ev: E): nat {
    (if IsWaiting(s, ev) then 1 else 0) + (if ev in s.pending then 1 else 0) + (if ev in s.fired then 1 else 0)
  }

  /** No event is pending twice and no timer fired twice; pending events have been set. */
  ghost predicate ListsInv<E>(s: Sys<E>) {
    && Distinct(s.pending) && Distinct(s.fired)
    && (forall ev :: ev in s.fired ==> ev in s.armed)
    && (forall ev :: ev in s.pending ==> ev in s.attrs)
    && (forall ev :: ev in s.armed ==> ev in s.attrs && s.attrs[ev].fd == -1)
  }

  /** Every armed timer is on the timer list, pending or fired, in exactly one of them; and it left the
      timer list only when the clock was past its deadline. */
  ghost predicate PlacesInv<E>(s: Sys<E>) {
    && (forall ev :: ev in s.armed ==> Places(s, ev) == 1)
    && (forall ev :: ev in s.armed && !IsWaiting(s, ev) ==> ev in s.due && Before(s.armed[ev], s.due[ev]))
  }

  ghost predicate HistoryInv<E>(s: Sys<E>) {
    ListsInv(s) && PlacesInv(s)
  }

  ghost predicate Inv<E>(s: Sys<E>) {
    TimersInv(s) && WatchInv(s) && HistoryInv(s)
  }

  lemma DistinctInsert<T>(s: seq<T>, n: nat, x: T)
    requires Distinct(s) && x !in s && n <= |s|
    ensures Distinct(s[..n] + [x] + s[n..])
    ensures forall y :: y in s[..n] + [x] + s[n..] <==> y in s || y == x
  {
    var r := s[..n] + [x] + s[n..];
    assert s == s[..n] + s[n..];
    forall y ensures y in r <==> y in s || y == x {
      assert y in s <==> y in s[..n] || y in s[n..];
    }
  }

  lemma ArmTimers<E>(s: Sys<E>, ev: E, now: TimeVal, tv: TimeVal)
    requires TimersInv(s) && Allowed(s, Arm(ev, now, tv))
    ensures TimersInv(Perform(s, Arm(ev, now, tv)))
    ensures forall x :: IsWaiting(Perform(s, Arm(ev, now, tv)), x) <==> IsWaiting(s, x) || x == ev
  {
    hide Before, TimerAdd, Sorted;
    var t, e := Perform(s, Arm(ev, now, tv)), Entry(ev, TimerAdd(now, tv));
    Arithmetic(now, tv);
    InsertTimerSorted(s.timers, e);
    var n := CountBefore(s.timers, e.deadline);
    NotWaiting(s, ev);
    DistinctInsert(Events(s.timers), n, ev);
    assert Events(t.timers) == Events(s.timers)[..n] + [ev] + Events(s.timers)[n..];
  }

  lemma NotWaiting<E>(s: Sys<E>, ev: E)
    requires TimersInv(s) && ev !in s.armed
    ensures !IsWaiting(s, ev)
  {
  }

  lemma ArmKeeps<E>(s: Sys<E>, ev: E, now: TimeVal, tv: TimeVal)
    requires Inv(s) && Allowed(s, Arm(ev, now, tv))
    ensures Inv(Perform(s, Arm(ev, now, tv)))
  {
    ArmTimers(s, ev, now, tv);
    ArmWatch(s, ev, now, tv);
    ArmLists(s, ev, now, tv);
    ArmPlaces(s, ev, now, tv);
    hide TimersInv, WatchInv, ListsInv, PlacesInv, Perform, Allowed;
  }

  lemma ArmLists<E>(s: Sys<E>, ev: E, now: TimeVal, tv: TimeVal)
    requires ListsInv(s) && Allowed(s, Arm(ev, now, tv))
    ensures ListsInv(Perform(s, Arm(ev, now, tv)))
  {
    hide Distinct, TimerAdd, InsertTimer, Watched, Normal;
  }

  lemma ArmPlaces<E>(s: Sys<E>, ev: E, now: TimeVal, tv: TimeVal)
    requires TimersInv(s) && ListsInv(s) && PlacesInv(s) && Allowed(s, Arm(ev, now, tv))
    ensures PlacesInv(Perform(s, Arm(ev, now, tv)))
  {
    ArmTimers(s, ev, now, tv);
    hide Distinct, TimerAdd, InsertTimer, Watched, Normal, IsWaiting, Before, TimersInv;
    var t := Perform(s, Arm(ev, now, tv));
    forall x | x in t.armed ensures Places(t, x) == 1 {
      assert x != ev ==> Places(s, x) == 1;
    }
  }

  lemma ArmWatch<E>(s: Sys<E>, ev: E, now: TimeVal, tv: TimeVal)
    requires WatchInv(s) && Allowed(s, Arm(ev, now, tv))
    ensures WatchInv(Perform(s, Arm(ev, now, tv)))
  {
    hide FdsInv, TimerAdd, InsertTimer;
  }

  /** The history does not look at the watch table. */
  lemma FdsOnly<E>(s: Sys<E>, fds: Fds<E>)
    requires TimersInv(s) && HistoryInv(s)
    ensures TimersInv(s.(fds := fds)) && HistoryInv(s.(fds := fds))
  {
    hide Distinct, Before, Sorted, Events;
    var t := s.(fds := fds);
    forall x | x in s.armed ensures Places(t, x) == 1 { assert Places(s, x) == 1; }
  }

  lemma AddKeeps<E>(s: Sys<E>, ev: E)
    requires Inv(s) && Allowed(s, Add(ev))
    ensures Inv(Perform(s, Add(ev)))
  {
    AddWatchKeeps(s.fds, Watch(ev, s.attrs[ev].fd, s.attrs[ev].persist));
    FdsOnly(s, AddWatch(s.fds, Watch(ev, s.attrs[ev].fd, s.attrs[ev].persist)));
    hide FdsInv, TimersInv, HistoryInv, Watched, WatchedFd;
  }

  lemma DelKeeps<E>(s: Sys<E>, ev: E)
    requires Inv(s)
    ensures Inv(Perform(s, Del(ev)))
  {
    DeleteWatchKeeps(s.fds, ev);
    FdsOnly(s, DeleteWatch(s.fds, ev));
    hide FdsInv, TimersInv, HistoryInv, Watched, WatchedFd, MaxFd;
  }

  lemma SetKeeps<E>(s: Sys<E>, ev: E, fd: int, persist: bool)
    requires Inv(s)
    ensures Inv(Perform(s, Set(ev, fd, persist)))
  {
    hide FdsInv, Sorted;
  }

  lemma PerformKeeps<E>(s: Sys<E>, a: Action<E>)
    requires Inv(s)
    ensures Inv(Perform(s, a))
  {
    hide Inv;
    if Allowed(s, a) {
      match a
      case Set(ev, fd, persist) => SetKeeps(s, ev, fd, persist);
      case Add(ev) => AddKeeps(s, ev);
      case Del(ev) => DelKeeps(s, ev);
      case Arm(ev, now, tv) => ArmKeeps(s, ev, now, tv);
    }
  }

  lemma {:induction false} PerformAllKeeps<E>(s: Sys<E>, actions: seq<Action<E>>)
    requires Inv(s)
    ensures Inv(PerformAll(s, actions))
    decreases |actions|
  {
    hide Inv, Perform;
    if actions != [] {
      PerformKeeps(s, actions[0]);
      PerformAllKeeps(Perform(s, actions[0]), actions[1..]);
    }
  }

  lemma DistinctAppend<T>(a: seq<T>, b: seq<T>)
    requires Distinct(a) && Distinct(b) && forall x :: x in a ==> x !in b
    ensures Distinct(a + b)
  {
    var s := a + b;
    forall i, j | 0 <= i < j < |s| ensures s[i] != s[j] {
      if i < |a| <= j { assert s[i] in a && s[j] == b[j - |a|]; }
    }
  }

  /** The timers split at the clock value: those taken off, and those kept. */
  lemma TimeoutsSplit<E>(s: Sys<E>, now: TimeVal)
    requires TimersInv(s)
    ensures var n := CountBefore(s.timers, now);
            var out, kept := Events(s.timers[..n]), Events(s.timers[n..]);
            && Events(s.timers) == out + kept && Distinct(out)
            && (forall ev :: ev in out ==> ev in s.armed && Before(s.armed[ev], now) && ev !in kept)
  {
    hide Before;
    var n := CountBefore(s.timers, now);
    var all, out, kept := Events(s.timers), Events(s.timers[..n]), Events(s.timers[n..]);
    assert all == out + kept;
    forall ev | ev in out ensures ev in s.armed && Before(s.armed[ev], now) && ev !in kept {
      var i :| 0 <= i < |out| && out[i] == ev;
      assert s.timers[i].ev == ev && all[i] == ev;
      forall j | 0 <= j < |kept| ensures kept[j] != ev { assert all[|out| + j] == kept[j]; }
    }
    forall i, j | 0 <= i < j < |out| ensures out[i] != out[j] { assert all[i] == out[i] && all[j] == out[j]; }
  }

  lemma TimeoutsKeeps<E>(s: Sys<E>, now: TimeVal)
    requires Inv(s)
    ensures Inv(Timeouts(s, now))
  {
    TimeoutsSplit(s, now);
    TimeoutsTimers(s, now);
    TimeoutsHistory(s, now);
    hide HistoryInv, TimersInv, FdsInv;
  }

  lemma TimeoutsHistory<E>(s: Sys<E>, now: TimeVal)
    requires TimersInv(s) && HistoryInv(s)
    ensures HistoryInv(Timeouts(s, now))
  {
    TimeoutsLists(s, now);
    TimeoutsPlaces(s, now);
    hide ListsInv, PlacesInv;
  }

  lemma TimeoutsLists<E>(s: Sys<E>, now: TimeVal)
    requires TimersInv(s) && HistoryInv(s)
    ensures ListsInv(Timeouts(s, now))
  {
    TimeoutsSplit(s, now);
    hide Before, TimersInv, CountBefore, Events, Distinct;
    var out := Events(s.timers[..CountBefore(s.timers, now)]);
    forall ev | ev in s.pending ensures ev !in out { assert ev in out ==> Places(s, ev) == 1; }
    DistinctAppend(s.pending, out);
  }

  lemma TimeoutsPlaces<E>(s: Sys<E>, now: TimeVal)
    requires TimersInv(s) && PlacesInv(s)
    ensures PlacesInv(Timeouts(s, now))
  {
    hide Timeouts, IsWaiting, TimersInv, Before;
    var t := Timeouts(s, now);
    TimeoutsFields(s, now);
    forall ev | ev in s.armed
      ensures Places(t, ev) == 1
      ensures !IsWaiting(t, ev) ==> ev in t.due && Before(t.armed[ev], t.due[ev])
    {
      assert Places(s, ev) == 1;
      TimeoutsPlace(s, now, ev);
    }
  }

  lemma TimeoutsFields<E>(s: Sys<E>, now: TimeVal)
    ensures Timeouts(s, now).armed == s.armed && Timeouts(s, now).fired == s.fired
  {
  }

  /** Where a timer goes: one taken off moves to the pending list, the others stay. */
  lemma TimeoutsPlace<E>(s: Sys<E>, now: TimeVal, ev: E)
    requires TimersInv(s) && ev in s.armed && Places(s, ev) == 1
    requires !IsWaiting(s, ev) ==> ev in s.due && Before(s.armed[ev], s.due[ev])
    ensures var t := Timeouts(s, now);
            && (IsWaiting(s, ev) ==> IsWaiting(t, ev) != (ev in t.pending))
            && (!IsWaiting(s, ev) ==> !IsWaiting(t, ev) && (ev in t.pending <==> ev in s.pending))
            && (!IsWaiting(t, ev) ==> ev in t.due && Before(t.armed[ev], t.due[ev]))
  {
    hide TimersInv, CountBefore, Events, Distinct, Before;
    TimeoutsSplit(s, now);
    var n := CountBefore(s.timers, now);
    var out, kept := Events(s.timers[..n]), Events(s.timers[n..]);
    assert ev in Events(s.timers) <==> ev in out || ev in kept;
    assert IsWaiting(Timeouts(s, now), ev) <==> ev in kept;
  }

  lemma TimeoutsTimers<E>(s: Sys<E>, now: TimeVal)
    requires TimersInv(s)
    ensures TimersInv(Timeouts(s, now))
  {
    hide Before, CountBefore;
    var n := CountBefore(s.timers, now);
    assert Events(s.timers[n..]) == Events(s.timers)[n..];
  }

  // ---- what later calls find of an earlier one ----

  /** Every call but another `Set` or `Arm` of it keeps the attributes of an event. */
  lemma {:induction false} AttrsStay<E>(s: Sys<E>, actions: seq<Action<E>>, ev: E)
    requires ev in s.attrs && forall i :: 0 <= i < |actions| && actions[i].ev == ev ==> actions[i].Add? || actions[i].Del?
    ensures ev in PerformAll(s, actions).attrs && PerformAll(s, actions).attrs[ev] == s.attrs[ev]
    decreases |actions|
  {
    hide Allowed;
    if actions != [] { AttrsStay(Perform(s, actions[0]), actions[1..], ev); }
  }

  /** An event that has been set is watched as it was set, in the first free slot, whatever else is called
      between that and the call that adds it. */
  lemma WatchedAsSet<E>(s: Sys<E>, ev: E, fd: int, persist: bool, between: seq<Action<E>>)
    requires Inv(s) && Allowed(s, Set(ev, fd, persist))
    requires forall i :: 0 <= i < |between| && between[i].ev == ev ==> between[i].Add? || between[i].Del?
    ensures var t := PerformAll(Perform(s, Set(ev, fd, persist)), between);
            Allowed(t, Add(ev)) && FreeSlot(t.fds.table) < |t.fds.table| ==>
              var u := Perform(t, Add(ev));
              && u.fds.table == t.fds.table[FreeSlot(t.fds.table) := Some(Watch(ev, fd, persist))]
              && u.fds.readFds == t.fds.readFds + {fd}
  {
    hide Inv, PerformAll;
    var first := Perform(s, Set(ev, fd, persist));
    AttrsStay(first, between, ev);
    PerformKeeps(s, Set(ev, fd, persist));
    PerformAllKeeps(first, between);
    var t := PerformAll(first, between);
    if Allowed(t, Add(ev)) && FreeSlot(t.fds.table) < |t.fds.table| { AddedAsSet(t, ev); }
  }

  lemma AddedAsSet<E>(s: Sys<E>, ev: E)
    requires Inv(s) && Allowed(s, Add(ev)) && FreeSlot(s.fds.table) < |s.fds.table|
    ensures var w := Watch(ev, s.attrs[ev].fd, s.attrs[ev].persist);
            && Perform(s, Add(ev)).fds.table == s.fds.table[FreeSlot(s.fds.table) := Some(w)]
            && Perform(s, Add(ev)).fds.readFds == s.fds.readFds + {w.fd}
  {
    AddWatchKeeps(s.fds, Watch(ev, s.attrs[ev].fd, s.attrs[ev].persist));
    hide FdsInv, TimersInv, HistoryInv, Watched, WatchedFd, FreeSlot;
  }

  /** A timer waits until the time it is armed at plus the time it is armed for; its event watches nothing. */
  lemma ArmedFor<E>(s: Sys<E>, ev: E, now: TimeVal, tv: TimeVal)
    requires Inv(s) && Allowed(s, Arm(ev, now, tv))
    ensures var t := Perform(s, Arm(ev, now, tv));
            && IsWaiting(t, ev) && Normal(t.armed[ev]) && Micros(t.armed[ev]) == Micros(now) + Micros(tv)
            && t.attrs[ev].fd == -1 && t.fds == s.fds
  {
    ArmTimers(s, ev, now, tv);
    Arithmetic(now, tv);
    hide TimersInv, WatchInv, HistoryInv, TimerAdd, IsWaiting, InsertTimer, Watched;
  }

  // ---- reads and firing ----

  lemma {:induction false} ReadyEventsWatched<E>(table: Table<E>, rfds: set<int>, ev: E)
    requires ev in ReadyEvents(table, rfds)
    ensures Watched(table, ev)
  {
    if IsReady(table[0], rfds) && table[0].value.ev == ev {
    } else {
      ReadyEventsWatched(table[1..], rfds, ev);
      var i :| 0 <= i < |table[1..]| && table[1..][i].Some? && table[1..][i].value.ev == ev;
      assert table[i + 1] == table[1..][i];
    }
  }

  lemma {:induction false} ReadyEventsDistinct<E>(table: Table<E>, rfds: set<int>)
    requires forall i, j :: 0 <= i < j < |table| && table[i].Some? && table[j].Some? ==> table[i].value.ev != table[j].value.ev
    ensures Distinct(ReadyEvents(table, rfds))
  {
    if table != [] {
      ReadyEventsDistinct(table[1..], rfds);
      if IsReady(table[0], rfds) {
        var ev := table[0].value.ev;
        if ev in ReadyEvents(table[1..], rfds) { ReadyEventsWatched(table[1..], rfds, ev); }
        DistinctAppend([ev], ReadyEvents(table[1..], rfds));
      }
    }
  }

  lemma ReadiesKeeps<E>(s: Sys<E>, rfds: set<int>)
    requires Inv(s) && forall ev :: ev in s.pending ==> ev in s.armed
    ensures Inv(Readies(s, rfds))
    ensures Readies(s, rfds).pending == s.pending + ReadyEvents(s.fds.table, rfds)
    ensures forall ev :: ev in ReadyEvents(s.fds.table, rfds) ==> ev !in s.armed
  {
    ReadiesComplete(s.fds, rfds);
    ReadyEventsDistinct(s.fds.table, rfds);
    hide FdsInv, Sorted, ReadyEvents, ReadiesFrom, Distinct;
    var t, out := Readies(s, rfds), ReadyEvents(s.fds.table, rfds);
    forall ev | ev in out ensures ev in s.attrs && ev !in s.armed { ReadyEventsWatched(s.fds.table, rfds, ev); }
    DistinctAppend(s.pending, out);
    assert WatchInv(t) by {
      forall i | 0 <= i < |t.fds.table| && t.fds.table[i].Some? ensures t.fds.table[i] == s.fds.table[i] { }
    }
    forall ev | ev in s.armed ensures Places(t, ev) == 1 { assert Places(s, ev) == 1; }
  }

  lemma FireOneKeeps<E>(s: Sys<E>)
    requires Inv(s) && s.pending != []
    ensures Inv(FireOne(s))
  {
    FireOneHistory(s);
    hide FdsInv, Sorted, HistoryInv, Distinct;
  }

  lemma FireOneHistory<E>(s: Sys<E>)
    requires HistoryInv(s) && s.pending != []
    ensures HistoryInv(FireOne(s))
  {
    hide Before, Events;
    var t, ev := FireOne(s), s.pending[0];
    assert s.pending == [ev] + t.pending;
    assert ev !in t.pending;
    if ev in s.armed { assert Places(s, ev) == 1; DistinctAppend(s.fired, [ev]); }
    forall x | x in s.armed ensures Places(t, x) == 1 { assert Places(s, x) == 1; }
  }

  /** The timers among a list of events. */
  ghost function OnlyTimers<E>(s: seq<E>, armed: map<E, TimeVal>): seq<E> {
    if s == [] then [] else (if s[0] in armed then [s[0]] else []) + OnlyTimers(s[1..], armed)
  }

  lemma {:induction false} OnlyTimersSame<E>(s: seq<E>, a: map<E, TimeVal>, b: map<E, TimeVal>)
    requires forall ev :: ev in s ==> (ev in a <==> ev in b)
    ensures OnlyTimers(s, a) == OnlyTimers(s, b)
  {
    if s != [] { OnlyTimersSame(s[1..], a, b); }
  }

  lemma {:induction false} OnlyTimersParts<E>(s: seq<E>, t: seq<E>, a: map<E, TimeVal>)
    requires (forall ev :: ev in s ==> ev in a) && (forall ev :: ev in t ==> ev !in a)
    ensures OnlyTimers(s + t, a) == s
  {
    if s != [] {
      assert (s + t)[1..] == s[1..] + t;
      OnlyTimersParts(s[1..], t, a);
    } else if t != [] {
      assert s + t == t;
      OnlyTimersParts(s, t[1..], a);
      assert s + t[1..] == t[1..];
    }
  }

  /** After one callback, fired and still pending timers are together what they were. */
  lemma FireStep<E>(s: Sys<E>, acts: seq<Action<E>>)
    requires Inv(s) && s.pending != []
    ensures var next := PerformAll(FireOne(s), acts);
            && Inv(next) && |next.pending| < |s.pending|
            && next.fired + OnlyTimers(next.pending, next.armed) == s.fired + OnlyTimers(s.pending, s.armed)
  {
    hide Inv, PerformAll;
    var one := FireOne(s);
    FireOneKeeps(s);
    PerformAllKeeps(one, acts);
    var next := PerformAll(one, acts);
    OnlyTimersSame(next.pending, s.armed, next.armed);
    assert OnlyTimers(s.pending, s.armed)
        == (if s.pending[0] in s.armed then [s.pending[0]] else []) + OnlyTimers(next.pending, next.armed);
  }

  /** Firing empties the pending list, calls every pending timer once in list order and no other. */
  lemma {:induction false} FireAllKeeps<E>(s: Sys<E>, callbacks: seq<seq<Action<E>>>)
    requires Inv(s)
    ensures Inv(FireAll(s, callbacks)) && FireAll(s, callbacks).pending == []
    ensures FireAll(s, callbacks).fired == s.fired + OnlyTimers(s.pending, s.armed)
    decreases |s.pending|
  {
    hide Inv, PerformAll, FireOne;
    if s.pending != [] {
      var acts := if callbacks == [] then [] else callbacks[0];
      FireStep(s, acts);
      NoActions(FireOne(s));
      FireAllKeeps(PerformAll(FireOne(s), acts), if callbacks == [] then [] else callbacks[1..]);
    }
  }

  lemma NoActions<E>(s: Sys<E>)
    ensures PerformAll(s, []) == s
  {
  }

  /** The two checks keep the invariant. They queue the due timers in the order of the timer list, and then
      the ready events in the order of the watch table. */
  lemma CheckedKeeps<E>(s: Sys<E>, it: Iteration<E>)
    requires Inv(s) && s.pending == [] && it.selected.Ready?
    ensures Inv(Checked(s, it)) && Checked(s, it).fired == s.fired
    ensures var timers := PerformAll(s, it.asleep).timers;
            OnlyTimers(Checked(s, it).pending, Checked(s, it).armed) == Events(timers[..CountBefore(timers, it.now)])
    ensures var a := PerformAll(s, it.asleep);
            var table := PerformAll(Timeouts(a, it.now), it.between).fds.table;
            Checked(s, it).pending
            == Events(a.timers[..CountBefore(a.timers, it.now)]) + ReadyEvents(table, it.selected.rfds)
  {
    PerformAllKeeps(s, it.asleep);
    var a := PerformAll(s, it.asleep);
    TimeoutsKeeps(a, it.now);
    TimersOf(a, it.now);
    var b := Timeouts(a, it.now);
    PerformAllKeeps(b, it.between);
    var c := PerformAll(b, it.between);
    ReadiesKeeps(c, it.selected.rfds);
    OnlyTimersParts(c.pending, ReadyEvents(c.fds.table, it.selected.rfds), c.armed);
    hide Inv, PerformAll, ReadyEvents, ReadiesFrom, OnlyTimers, Events, CountBefore;
  }

  lemma TimersOf<E>(s: Sys<E>, now: TimeVal)
    requires Inv(s) && s.pending == []
    ensures Timeouts(s, now).pending == Events(s.timers[..CountBefore(s.timers, now)])
    ensures forall ev :: ev in Timeouts(s, now).pending ==> ev in s.armed
  {
    TimeoutsSplit(s, now);
    hide Inv, CountBefore;
  }

  /** One pass through the loop keeps the invariant and ends with nothing pending, and it fires
      exactly the timers whose deadline was before the clock value of the timeout check, in the order
      of the timer list. */
  lemma IterateKeeps<E>(s: Sys<E>, it: Iteration<E>)
    requires Inv(s) && s.pending == []
    ensures Inv(Iterate(s, it)) && Iterate(s, it).pending == []
    ensures it.selected.Ready? ==>
              var timers := PerformAll(s, it.asleep).timers;
              Iterate(s, it).fired == s.fired + Events(timers[..CountBefore(timers, it.now)])
  {
    hide Inv, PerformAll, OnlyTimers, Events, CountBefore, Checked, FireAll;
    PerformAllKeeps(s, it.asleep);
    if it.selected.Ready? {
      CheckedKeeps(s, it);
      FireAllKeeps(Checked(s, it), it.callbacks);
    }
  }

  /** `ril_event_init`. */
  ghost function Initial<E>(): Sys<E> {
    Sys(map[], Fds(seq(MAX_FD_EVENTS, _ => None), {}, 0), [], [], map[], map[], [])
  }

  lemma {:induction false} RunKeeps<E>(s: Sys<E>, its: seq<Iteration<E>>)
    requires Inv(s) && s.pending == []
    ensures Inv(Run(s, its)) && Run(s, its).pending == []
  {
    if its != [] {
      RunKeeps(s, its[..|its| - 1]);
      IterateKeeps(Run(s, its[..|its| - 1]), its[|its| - 1]);
    }
  }

  /** Every run from the initial state: the lists and the watch table stay well formed, each armed
      timer is in exactly one place, has fired at most once and only past its deadline, and nothing
      is pending when the loop goes back to `select`. */
  lemma EveryRun<E>(its: seq<Iteration<E>>)
    ensures var s := Run(Initial(), its);
            && Inv(s) && s.pending == []
            && (forall ev :: ev in s.armed ==> IsWaiting(s, ev) != (ev in s.fired))
            && (forall i, j :: 0 <= i < j < |s.fired| ==> s.fired[i] != s.fired[j])
            && (forall ev :: ev in s.fired ==> ev in s.armed && ev in s.due && Before(s.armed[ev], s.due[ev]))
  {
    assert Inv<E>(Initial());
    RunKeeps<E>(Initial(), its);
    var s := Run<E>(Initial(), its);
    forall ev | ev in s.armed ensures IsWaiting(s, ev) != (ev in s.fired) { assert Places(s, ev) == 1; }
    forall ev | ev in s.fired ensures !IsWaiting(s, ev) { assert Places(s, ev) == 1; }
  }
}
