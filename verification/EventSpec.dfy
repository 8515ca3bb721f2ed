/** What the functions of `ril_event.cpp` do to the timer list, the pending list and the watch
    table, over values: lists are sequences, and `E` stands for event identities. */
module EventSpec {
  import opened Wrappers
  import opened TimeVals

  /** The 8 slots of the watch table. */
  const MAX_FD_EVENTS: nat := 8

  datatype Entry<E> = Entry(ev: E, deadline: TimeVal)

  datatype Watch<E> = Watch(ev: E, fd: int, persist: bool)

  type Table<E> = seq<Option<Watch<E>>>

  // ---- timers ----

  predicate Sorted<E>(timers: seq<Entry<E>>) {
    forall i, j :: 0 <= i < j < |timers| ==> !Before(timers[j].deadline, timers[i].deadline)
  }

  ghost predicate AllNormal<E>(timers: seq<Entry<E>>) {
    forall i :: 0 <= i < |timers| ==> Normal(timers[i].deadline)
  }

  /** How many entries at the front have a deadline before `t`. */
  function CountBefore<E>(timers: seq<Entry<E>>, t: TimeVal): (n: nat)
    ensures n <= |timers|
    ensures forall i :: 0 <= i < n ==> Before(timers[i].deadline, t)
    ensures n < |timers| ==> !Before(timers[n].deadline, t)
  {
    if timers == [] || !Before(timers[0].deadline, t) then 0 else 1 + CountBefore(timers[1..], t)
  }

  function InsertTimer<E>(timers: seq<Entry<E>>, e: Entry<E>): seq<Entry<E>> {
    var n := CountBefore(timers, e.deadline);
    timers[..n] + [e] + timers[n..]
  }

  /** In a sorted list the entries before `t` are exactly the counted ones. */
  lemma CountBeforeSplits<E>(timers: seq<Entry<E>>, t: TimeVal, i: nat)
    requires Sorted(timers) && i < |timers|
    ensures Before(timers[i].deadline, t) <==> i < CountBefore(timers, t)
  {
    var n := CountBefore(timers, t);
    if i > n { assert !Before(timers[i].deadline, timers[n].deadline); }
  }

  /** The new timer goes behind every strictly earlier deadline and in front of all others, and the
      list stays sorted. */
  lemma InsertTimerPlaces<E>(timers: seq<Entry<E>>, e: Entry<E>, i: nat)
    requires Sorted(timers) && i < |timers|
    ensures Sorted(InsertTimer(timers, e))
    ensures var at := CountBefore(timers, e.deadline);
            && InsertTimer(timers, e)[at] == e
            && InsertTimer(timers, e)[if Before(timers[i].deadline, e.deadline) then i else i + 1] == timers[i]
            && (Before(timers[i].deadline, e.deadline) <==> i < at)
  {
    CountBeforeSplits(timers, e.deadline, i);
    InsertTimerSorted(timers, e);
    hide Sorted, Before;
  }

  lemma InsertTimerSorted<E>(timers: seq<Entry<E>>, e: Entry<E>)
    requires Sorted(timers)
    ensures Sorted(InsertTimer(timers, e))
  {
    var n, r := CountBefore(timers, e.deadline), InsertTimer(timers, e);
    forall i, j | 0 <= i < j < |r| ensures !Before(r[j].deadline, r[i].deadline) {
      if j == n { assert r[i] == timers[i]; }
      if i == n { CountBeforeSplits(timers, e.deadline, j - 1); }
    }
  }

  /** What `calcNextTimeout` returns: nothing when no timer is armed, else how long to sleep. */
  function NextTimeout<E>(timers: seq<Entry<E>>, now: TimeVal): Option<TimeVal> {
    if timers == [] then None
    else if Before(now, timers[0].deadline) then Some(TimerSub(timers[0].deadline, now))
    else Some(TimeVal(0, 0))
  }

  /** Sleeping that long from `now` ends at the earliest deadline, or at once when that has passed;
      in particular never past any armed timer that is still in the future. */
  lemma NextTimeoutIsEarliest<E>(timers: seq<Entry<E>>, now: TimeVal)
    requires Sorted(timers) && AllNormal(timers) && Normal(now)
    ensures NextTimeout(timers, now).None? <==> timers == []
    ensures NextTimeout(timers, now).Some? ==>
              var wait := NextTimeout(timers, now).value;
              var wake := Micros(now) + Micros(wait);
              && Normal(wait)
              && wake >= Micros(now)
              && (forall i :: 0 <= i < |timers| ==> wake <= Micros(timers[i].deadline) || wake == Micros(now))
              && (wake == Micros(now) || exists i :: 0 <= i < |timers| && wake == Micros(timers[i].deadline))
              && (wake == Micros(now) <==> exists i :: 0 <= i < |timers| && Micros(timers[i].deadline) <= Micros(now))
  {
    if timers != [] {
      Arithmetic(timers[0].deadline, now);
      Arithmetic(now, timers[0].deadline);
      forall i | 0 <= i < |timers| ensures Micros(timers[0].deadline) <= Micros(timers[i].deadline) {
        Arithmetic(timers[i].deadline, timers[0].deadline);
      }
    }
  }

  // ---- the watch table ----

  predicate Watched<E(==)>(table: Table<E>, ev: E) {
    exists i :: 0 <= i < |table| && table[i].Some? && table[i].value.ev == ev
  }

  ghost predicate WatchedFd<E>(table: Table<E>, fd: int) {
    exists i :: 0 <= i < |table| && table[i].Some? && table[i].value.fd == fd
  }

  function FreeSlot<E>(table: Table<E>): (i: nat)
    ensures i <= |table|
    ensures i < |table| ==> table[i].None?
    ensures forall j :: 0 <= j < i ==> table[j].Some?
  {
    if table == [] || table[0].None? then 0 else 1 + FreeSlot(table[1..])
  }

  function SlotOf<E(==)>(table: Table<E>, ev: E): (i: nat)
    ensures i <= |table|
    ensures i < |table| ==> table[i].Some? && table[i].value.ev == ev
    ensures forall j :: 0 <= j < i ==> !(table[j].Some? && table[j].value.ev == ev)
  {
    if table == [] || (table[0].Some? && table[0].value.ev == ev) then 0 else 1 + SlotOf(table[1..], ev)
  }

  /** The largest watched fd, or 0: the scan in `removeWatch`. */
  function MaxFd<E>(table: Table<E>): (n: int)
    ensures n >= 0
    ensures forall i :: 0 <= i < |table| && table[i].Some? ==> table[i].value.fd <= n
    ensures n == 0 || WatchedFd(table, n)
  {
    if table == [] then 0
    else
      var l := |table| - 1;
      var n := MaxFd(table[..l]);
      assert WatchedFd(table[..l], n) ==> WatchedFd(table, n);
      if table[l].Some? && table[l].value.fd > n then assert table[l].value.fd == table[l].value.fd; table[l].value.fd else n
  }

  datatype Fds<E> = Fds(table: Table<E>, readFds: set<int>, nfds: int)

  function AddWatch<E>(s: Fds<E>, w: Watch<E>): Fds<E> {
    var i := FreeSlot(s.table);
    if i < |s.table| then
      Fds(s.table[i := Some(w)], s.readFds + {w.fd}, if w.fd >= s.nfds then w.fd + 1 else s.nfds)
    else s
  }

  function RemoveWatch<E>(s: Fds<E>, i: nat): Fds<E>
    requires i < |s.table| && s.table[i].Some?
  {
    var fd, table := s.table[i].value.fd, s.table[i := None];
    Fds(table, s.readFds - {fd}, if fd + 1 == s.nfds then MaxFd(table) + 1 else s.nfds)
  }

  function DeleteWatch<E(==)>(s: Fds<E>, ev: E): Fds<E> {
    var i := SlotOf(s.table, ev);
    if i < |s.table| then RemoveWatch(s, i) else s
  }

  /** Distinct events on distinct valid descriptors; `readFds` is exactly what they watch; `nfds` is
      one more than the largest whenever anything is watched, and at most 1 otherwise. */
  ghost predicate FdsInv<E>(s: Fds<E>) {
    && |s.table| == MAX_FD_EVENTS
    && (forall i :: 0 <= i < |s.table| && s.table[i].Some? ==> s.table[i].value.fd >= 0)
    && (forall i, j :: 0 <= i < j < |s.table| && s.table[i].Some? && s.table[j].Some? ==>
          s.table[i].value.fd != s.table[j].value.fd && s.table[i].value.ev != s.table[j].value.ev)
    && (forall fd :: fd in s.readFds <==> WatchedFd(s.table, fd))
    && (forall fd :: fd in s.readFds ==> fd < s.nfds)
    && (s.nfds - 1 in s.readFds || (s.readFds == {} && 0 <= s.nfds <= 1))
  }

  lemma AddWatchKeeps<E>(s: Fds<E>, w: Watch<E>)
    requires FdsInv(s) && w.fd >= 0 && !WatchedFd(s.table, w.fd) && !Watched(s.table, w.ev)
    ensures FdsInv(AddWatch(s, w))
    ensures FreeSlot(s.table) == MAX_FD_EVENTS ==> AddWatch(s, w) == s
    ensures FreeSlot(s.table) < MAX_FD_EVENTS ==>
              && AddWatch(s, w).table == s.table[FreeSlot(s.table) := Some(w)] && AddWatch(s, w).readFds == s.readFds + {w.fd}
              && Watched(AddWatch(s, w).table, w.ev)
  {
    hide FreeSlot;
    var i, t := FreeSlot(s.table), AddWatch(s, w);
    if i < |s.table| {
      assert t.table[i] == Some(w);
      forall fd ensures fd in t.readFds <==> WatchedFd(t.table, fd) {
        if WatchedFd(s.table, fd) {
          var k :| 0 <= k < |s.table| && s.table[k].Some? && s.table[k].value.fd == fd;
          assert t.table[k] == s.table[k];
        }
      }
      assert w.fd in t.readFds;
    }
  }

  lemma RemoveWatchKeeps<E>(s: Fds<E>, i: nat)
    requires FdsInv(s) && i < |s.table| && s.table[i].Some?
    ensures FdsInv(RemoveWatch(s, i))
    ensures RemoveWatch(s, i).readFds == s.readFds - {s.table[i].value.fd}
    ensures RemoveWatch(s, i).table == s.table[i := None]
  {
    hide MaxFd;
    var t, gone := RemoveWatch(s, i), s.table[i].value.fd;
    forall fd ensures fd in t.readFds <==> WatchedFd(t.table, fd) {
      if fd != gone && WatchedFd(s.table, fd) {
        var k :| 0 <= k < |s.table| && s.table[k].Some? && s.table[k].value.fd == fd;
        assert t.table[k] == s.table[k];
      }
    }
    var n := MaxFd(t.table);
    assert gone in s.readFds && s.nfds - 1 in s.readFds;
    if gone + 1 == s.nfds {
      if n == 0 && 0 !in t.readFds {
        forall fd ensures fd !in t.readFds {
          assert fd in t.readFds ==> WatchedFd(t.table, fd);
        }
        assert t.readFds == {};
      } else if n != 0 {
        assert WatchedFd(t.table, n);
      }
      forall fd | fd in t.readFds ensures fd < t.nfds { assert WatchedFd(t.table, fd); }
    }
  }

  lemma DeleteWatchKeeps<E>(s: Fds<E>, ev: E)
    requires FdsInv(s)
    ensures FdsInv(DeleteWatch(s, ev)) && !Watched(DeleteWatch(s, ev).table, ev)
    ensures DeleteWatch(DeleteWatch(s, ev), ev) == DeleteWatch(s, ev)
    ensures !Watched(s.table, ev) ==> DeleteWatch(s, ev) == s
    ensures |DeleteWatch(s, ev).table| == |s.table|
    ensures forall i :: 0 <= i < |s.table| ==>
              DeleteWatch(s, ev).table[i] == if s.table[i].Some? && s.table[i].value.ev == ev then None else s.table[i]
  {
    var i := SlotOf(s.table, ev);
    if i < |s.table| { RemoveWatchKeeps(s, i); }
    var t := DeleteWatch(s, ev);
    forall k | 0 <= k < |t.table| && t.table[k].Some? ensures t.table[k].value.ev != ev {
      assert t.table[k] == s.table[k];
    }
    assert !Watched(t.table, ev);
    assert SlotOf(t.table, ev) == |t.table|;
  }

  // ---- ready descriptors ----

  predicate IsReady<E>(slot: Option<Watch<E>>, rfds: set<int>) {
    slot.Some? && slot.value.fd in rfds
  }

  /** The loop of `processReadReadies` from slot `i` on, with `n` ready descriptors still expected:
      the watch state it leaves and the events it queues. */
  function ReadiesFrom<E>(s: Fds<E>, rfds: set<int>, n: int, i: nat): (r: (Fds<E>, seq<E>))
    requires i <= |s.table|
    ensures |r.0.table| == |s.table|
    decreases |s.table| - i
  {
    if i == |s.table| || n <= 0 then (s, [])
    else if IsReady(s.table[i], rfds) then
      var w := s.table[i].value;
      var rest := ReadiesFrom(if w.persist then s else RemoveWatch(s, i), rfds, n - 1, i + 1);
      (rest.0, [w.ev] + rest.1)
    else ReadiesFrom(s, rfds, n, i + 1)
  }

  function ReadyOne<E>(slot: Option<Watch<E>>, rfds: set<int>): seq<E> {
    if IsReady(slot, rfds) then [slot.value.ev] else []
  }

  /** All watched ready events, in table order. */
  function ReadyEvents<E>(table: Table<E>, rfds: set<int>): seq<E> {
    if table == [] then [] else ReadyOne(table[0], rfds) + ReadyEvents(table[1..], rfds)
  }

  /** The table without the one-shot watches that are ready. */
  function Remaining<E>(table: Table<E>, rfds: set<int>): (r: Table<E>)
    ensures |r| == |table|
  {
    seq(|table|, i requires 0 <= i < |table| =>
      if IsReady(table[i], rfds) && !table[i].value.persist then None else table[i])
  }

  /** Stopping once the count from `select` is used up loses nothing: whatever is watched by now, and
      whatever other descriptors were ready, all watched ready events are queued once each in table
      order, and exactly the one-shot ones leave the table. */
  lemma ReadiesComplete<E>(s: Fds<E>, rfds: set<int>)
    requires FdsInv(s)
    ensures ReadiesFrom(s, rfds, |rfds|, 0).1 == ReadyEvents(s.table, rfds)
    ensures ReadiesFrom(s, rfds, |rfds|, 0).0.table == Remaining(s.table, rfds)
    ensures FdsInv(ReadiesFrom(s, rfds, |rfds|, 0).0)
  {
    assert s.table[0..] == s.table;
    ReadyCount(s.table, rfds);
    ReadiesFromComplete(s, rfds, |rfds|, 0);
    assert s.table[..0] + Remaining(s.table, rfds) == Remaining(s.table, rfds);
  }

  ghost predicate DistinctFds<E>(table: Table<E>) {
    forall i, j :: 0 <= i < j < |table| && table[i].Some? && table[j].Some? ==> table[i].value.fd != table[j].value.fd
  }

  lemma {:induction false} ReadyCount<E>(table: Table<E>, rfds: set<int>)
    requires DistinctFds(table)
    ensures |ReadyEvents(table, rfds)| <= |rfds|
  {
    if table != [] {
      if IsReady(table[0], rfds) {
        var fd := table[0].value.fd;
        ReadyEventsWithout(table[1..], rfds, fd);
        ReadyCount(table[1..], rfds - {fd});
      } else {
        ReadyCount(table[1..], rfds);
      }
    }
  }

  lemma {:induction false} ReadyEventsWithout<E>(table: Table<E>, rfds: set<int>, fd: int)
    requires forall i :: 0 <= i < |table| && table[i].Some? ==> table[i].value.fd != fd
    ensures ReadyEvents(table, rfds) == ReadyEvents(table, rfds - {fd})
  {
    if table != [] { ReadyEventsWithout(table[1..], rfds, fd); }
  }

  lemma {:induction false} ReadiesFromComplete<E>(s: Fds<E>, rfds: set<int>, n: int, i: nat)
    requires FdsInv(s) && i <= |s.table| && n >= |ReadyEvents(s.table[i..], rfds)|
    ensures var r := ReadiesFrom(s, rfds, n, i);
            r.1 == ReadyEvents(s.table[i..], rfds) && FdsInv(r.0)
            && r.0.table == s.table[..i] + Remaining(s.table[i..], rfds)
    decreases |s.table| - i
  {
    hide FdsInv, RemoveWatch, Remaining;
    if i == |s.table| {
      assert s.table[i..] == [];
      assert s.table[..i] + Remaining(s.table[i..], rfds) == s.table;
    } else if n <= 0 {
      NothingReady(s.table[i..], rfds);
      assert s.table[..i] + s.table[i..] == s.table;
    } else {
      assert s.table[i..][1..] == s.table[i + 1..] && s.table[i..][0] == s.table[i];
      RemainingHead(s.table[i..], rfds);
      if IsReady(s.table[i], rfds) {
        var t := if s.table[i].value.persist then s else RemoveWatch(s, i);
        if !s.table[i].value.persist { RemoveWatchKeeps(s, i); }
        assert t.table[i + 1..] == s.table[i + 1..];
        ReadiesFromComplete(t, rfds, n - 1, i + 1);
        assert t.table[..i + 1] == s.table[..i] + [t.table[i]];
        ThreeParts(s.table[..i], [t.table[i]], Remaining(s.table[i + 1..], rfds));
      } else {
        ReadiesFromComplete(s, rfds, n, i + 1);
        assert s.table[..i + 1] == s.table[..i] + [s.table[i]];
        ThreeParts(s.table[..i], [s.table[i]], Remaining(s.table[i + 1..], rfds));
      }
    }
  }

  /** The same from the table and the reported descriptors alone: the slots whose events are queued are, in
      increasing order, exactly those that watch a reported descriptor, and of the table exactly their
      one-shot watches are gone. */
  lemma ReadiesInOrder<E>(s: Fds<E>, rfds: set<int>) returns (slots: seq<nat>)
    requires FdsInv(s)
    ensures var r := ReadiesFrom(s, rfds, |rfds|, 0);
            && |slots| == |r.1|
            && (forall j, k :: 0 <= j < k < |slots| ==> slots[j] < slots[k])
            && (forall k :: 0 <= k < |slots| ==> slots[k] < |s.table|)
            && (forall k :: 0 <= k < |slots| ==> s.table[slots[k]].Some? && r.1[k] == s.table[slots[k]].value.ev)
            && (forall i :: 0 <= i < |s.table| ==> (i in slots <==> s.table[i].Some? && s.table[i].value.fd in rfds))
            && (forall i :: 0 <= i < |s.table| ==>
                  r.0.table[i] == if s.table[i].Some? && s.table[i].value.fd in rfds && !s.table[i].value.persist
                                  then None else s.table[i])
  {
    ReadiesComplete(s, rfds);
    slots := ReadySlots(s.table, rfds);
    hide FdsInv, ReadiesFrom, ReadyEvents;
  }

  /** The slots that the queued events come from. */
  lemma {:induction false} ReadySlots<E>(table: Table<E>, rfds: set<int>) returns (slots: seq<nat>)
    ensures |slots| == |ReadyEvents(table, rfds)|
    ensures forall j, k :: 0 <= j < k < |slots| ==> slots[j] < slots[k]
    ensures forall k :: 0 <= k < |slots| ==> slots[k] < |table|
    ensures forall k :: 0 <= k < |slots| ==> table[slots[k]].Some? && ReadyEvents(table, rfds)[k] == table[slots[k]].value.ev
    ensures forall i :: 0 <= i < |table| ==> (i in slots <==> table[i].Some? && table[i].value.fd in rfds)
  {
    if table == [] {
      slots := [];
    } else {
      var l := |table| - 1;
      var front := ReadySlots(table[..l], rfds);
      ReadyEventsLast(table, rfds);
      slots := front + if table[l].Some? && table[l].value.fd in rfds then [l] else [];
      forall i | 0 <= i < l ensures i in slots <==> i in front { }
      hide ReadyEvents;
    }
  }

  lemma {:induction false} ReadyEventsLast<E>(table: Table<E>, rfds: set<int>)
    requires table != []
    ensures var l := |table| - 1;
            ReadyEvents(table, rfds) == ReadyEvents(table[..l], rfds) + ReadyOne(table[l], rfds)
  {
    hide IsReady;
    var l := |table| - 1;
    if l == 0 {
      assert table[1..] == [] && table[..0] == [];
    } else {
      ReadyEventsLast(table[1..], rfds);
      assert table[1..][..l - 1] == table[..l][1..] && table[1..][l - 1] == table[l] && table[..l][0] == table[0];
      ThreeParts(ReadyOne(table[0], rfds), ReadyEvents(table[..l][1..], rfds), ReadyOne(table[l], rfds));
    }
  }

  lemma ThreeParts<E>(a: seq<E>, b: seq<E>, c: seq<E>)
    ensures a + (b + c) == a + b + c
  {
  }

  lemma RemainingHead<E>(table: Table<E>, rfds: set<int>)
    requires table != []
    ensures Remaining(table, rfds)
         == [if IsReady(table[0], rfds) && !table[0].value.persist then None else table[0]] + Remaining(table[1..], rfds)
  {
  }

  lemma {:induction false} NothingReady<E>(table: Table<E>, rfds: set<int>)
    requires ReadyEvents(table, rfds) == []
    ensures Remaining(table, rfds) == table
  {
    if table != [] {
      NothingReady(table[1..], rfds);
      assert table == [table[0]] + table[1..];
      assert Remaining(table, rfds) == [table[0]] + Remaining(table[1..], rfds);
    }
  }
}
