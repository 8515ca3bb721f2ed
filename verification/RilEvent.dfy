/** `ril_event.cpp` itself: events linked into two circular doubly linked lists with sentinels, and
    the watch table with back-pointers, changed in place. */
module RilEvent {
  import opened Wrappers
  import opened TimeVals
  import opened EventSpec
  import opened EventRuns

  class Event {
    var next: Event?
    var prev: Event?
    var fd: int
    var index: int
    var persist: bool
    var timeout: TimeVal

    constructor ()
      ensures next == null && prev == null
    {
      next, prev, fd, index, persist, timeout := null, null, -1, -1, false, TimeVal(0, 0);
    }

    /** `init_list`. */
    constructor Sentinel()
      ensures Ring(this, [])
    {
      fd, index, persist, timeout := -1, 0, false, TimeVal(0, 0);
      next, prev := this, this;
    }

    /** A ring looks at nothing but the links. */
    twostate lemma SameRing(s: seq<Event>)
      requires old(Ring(this, s))
      requires next == old(next) && prev == old(prev)
      requires forall x :: x in s ==> x.next == old(x.next) && x.prev == old(x.prev)
      ensures Ring(this, s)
    {
      forall i | 0 <= i < |Tour(this, s)| ensures Tour(this, s)[i] == this || Tour(this, s)[i] in s { }
    }
  }

  /** The list walked once round, from the sentinel back to it. */
  ghost function Tour(head: Event, s: seq<Event>): seq<Event> { [head] + s + [head] }

  /** `s` hangs on `head` in order, with every `prev` undoing a `next`. */
  ghost predicate Ring(head: Event, s: seq<Event>)
    reads head, s
  {
    && head !in s && Distinct(s)
    && forall i :: 0 <= i <= |s| ==> Tour(head, s)[i].next == Tour(head, s)[i + 1] && Tour(head, s)[i + 1].prev == Tour(head, s)[i]
  }

  /** `addToList`: link `ev` in front of `list`, which is the sentinel or an element. */
  method AddToList(ev: Event, list: Event, ghost head: Event, ghost s: seq<Event>, ghost k: nat, ghost left: Event)
    requires Ring(head, s) && ev != head && ev !in s
    requires k <= |s| && left == Tour(head, s)[k] && list == Tour(head, s)[k + 1]
    modifies ev`next, ev`prev, list`prev, left`next
    ensures Ring(head, s[..k] + [ev] + s[k..])
  {
    ghost var t := s[..k] + [ev] + s[k..];
    DistinctInsert(s, k, ev);
    ev.next := list;
    ev.prev := list.prev;
    ev.prev.next := ev;
    list.prev := ev;
    forall i | 0 <= i <= |t|
      ensures Tour(head, t)[i].next == Tour(head, t)[i + 1] && Tour(head, t)[i + 1].prev == Tour(head, t)[i]
    {
      if i < k {
        assert Tour(head, t)[i] == Tour(head, s)[i] && Tour(head, t)[i + 1] == Tour(head, s)[i + 1];
      } else if i > k + 1 {
        assert Tour(head, t)[i] == Tour(head, s)[i - 1] && Tour(head, t)[i + 1] == Tour(head, s)[i];
      }
    }
  }

  /** `removeFromList`. */
  method RemoveFromList(ev: Event, ghost head: Event, ghost s: seq<Event>, ghost k: nat, ghost left: Event, ghost right: Event)
    requires Ring(head, s) && k < |s| && s[k] == ev
    requires left == Tour(head, s)[k] && right == Tour(head, s)[k + 2]
    modifies ev`next, ev`prev, left`next, right`prev
    ensures Ring(head, s[..k] + s[k + 1..])
    ensures ev.next == null && ev.prev == null
  {
    ghost var t := s[..k] + s[k + 1..];
    assert Tour(head, s)[k + 1] == ev;
    ev.next.prev := ev.prev;
    ev.prev.next := ev.next;
    ev.next := null;
    ev.prev := null;
    forall i | 0 <= i <= |t|
      ensures Tour(head, t)[i].next == Tour(head, t)[i + 1] && Tour(head, t)[i + 1].prev == Tour(head, t)[i]
    {
      if i < k {
        assert Tour(head, t)[i] == Tour(head, s)[i] && Tour(head, t)[i + 1] == Tour(head, s)[i + 1];
      } else if i > k {
        assert Tour(head, t)[i] == Tour(head, s)[i + 1] && Tour(head, t)[i + 1] == Tour(head, s)[i + 2];
      }
    }
  }

  lemma {:induction false} CountedUpTo<E>(timers: seq<Entry<E>>, t: TimeVal, k: nat)
    requires k <= |timers| && forall i :: 0 <= i < k ==> Before(timers[i].deadline, t)
    requires k < |timers| ==> !Before(timers[k].deadline, t)
    ensures CountBefore(timers, t) == k
  {
    if k > 0 { CountedUpTo(timers[1..], t, k - 1); }
  }

  lemma NoMoreReadies<E>(s: Fds<E>, rfds: set<int>, n: int, i: nat)
    requires i == |s.table| || (i < |s.table| && n <= 0)
    ensures ReadiesFrom(s, rfds, n, i) == (s, [])
  {
  }

  /** Events have been queued and watches dropped, and nothing else. */
  ghost predicate Queued(s: Sys<Event>, t: Sys<Event>, q: seq<Event>) {
    t == s.(fds := t.fds, pending := s.pending + q) && |t.fds.table| == |s.fds.table|
  }

  lemma QueuedNothing(s: Sys<Event>)
    ensures Queued(s, s, [])
  {
  }

  lemma QueuedLength(s: Sys<Event>, t: Sys<Event>, q: seq<Event>)
    requires Queued(s, t, q)
    ensures |t.fds.table| == |s.fds.table|
  {
  }

  lemma Requeue(p: seq<Event>, q: seq<Event>, r: seq<Event>)
    ensures p + (q + r) == p + q + r
  {
  }

  lemma QueuedTwice(s: Sys<Event>, t: Sys<Event>, u: Sys<Event>, p: seq<Event>, q: seq<Event>)
    requires Queued(s, t, p) && Queued(t, u, q)
    ensures Queued(s, u, p + q)
  {
    assert s.pending + p + q == s.pending + (p + q);
  }

  lemma AllQueued(s: Sys<Event>, t: Sys<Event>, q: seq<Event>, rfds: set<int>)
    requires Queued(s, t, q) && (t.fds, q) == ReadiesFrom(s.fds, rfds, |rfds|, 0)
    ensures t == Readies(s, rfds)
  {
  }

  class EventLoop {
    const timerList: Event
    const pendingList: Event
    const watchTable: array<Event?>
    var readFds: set<int>
    var nfds: int

    /** The two lists in order, and every event that has been set. */
    ghost var Timers: seq<Event>
    ghost var Pending: seq<Event>
    ghost var Known: set<Event>
    /** The history of the timers, as in `EventRuns.Sys`. */
    ghost var Armed: map<Event, TimeVal>
    ghost var Due: map<Event, TimeVal>
    ghost var Fired: seq<Event>

    ghost predicate Contained()
      reads this, watchTable
    {
      && watchTable.Length == MAX_FD_EVENTS
      && timerList != pendingList && timerList !in Known && pendingList !in Known
      && (forall ev :: ev in Timers ==> ev in Known && ev !in Pending)
      && (forall ev :: ev in Pending ==> ev in Known)
      && (forall i :: 0 <= i < watchTable.Length && watchTable[i] != null ==> watchTable[i] in Known)
    }

    /** `watch_table[i] == ev` exactly when `ev.index == i`. */
    ghost predicate BackPointers()
      requires Contained()
      reads this, watchTable, Known
    {
      && (forall i :: 0 <= i < watchTable.Length && watchTable[i] != null ==> watchTable[i].index == i)
      && (forall ev :: ev in Known ==> ev.index == -1 || (0 <= ev.index < watchTable.Length && watchTable[ev.index] == ev))
    }

    ghost predicate Valid()
      reads this, watchTable, Known, timerList, pendingList
    {
      Contained() && Ring(timerList, Timers) && Ring(pendingList, Pending) && BackPointers()
    }

    ghost function Entries(): (r: seq<Entry<Event>>)
      requires Contained()
      reads this, watchTable, Known
      ensures |r| == |Timers|
    {
      seq(|Timers|, i requires 0 <= i < |Timers| reads this, Timers => Entry(Timers[i], Timers[i].timeout))
    }

    ghost function Slot(i: nat): Option<Watch<Event>>
      requires Contained() && i < watchTable.Length
      reads this, watchTable, Known
    {
      if watchTable[i] == null then None else Some(Watch(watchTable[i], watchTable[i].fd, watchTable[i].persist))
    }

    ghost function Slots(): (r: Table<Event>)
      requires Contained()
      reads this, watchTable, Known
      ensures |r| == watchTable.Length
    {
      seq(watchTable.Length, i requires 0 <= i < watchTable.Length && Contained() reads this, watchTable, Known => Slot(i))
    }

    ghost function Attrs(): map<Event, Attr>
      reads this, Known
    {
      map ev | ev in Known :: Attr(ev.fd, ev.persist)
    }

    /** The state as `EventRuns` sees it. */
    ghost function View(): Sys<Event>
      requires Contained()
      reads this, watchTable, Known
    {
      Sys(Attrs(), Fds(Slots(), readFds, nfds), Entries(), Pending, Armed, Due, Fired)
    }

    /** `ril_event_init`. */
    constructor ()
      ensures Valid() && View() == Initial()
      ensures fresh(timerList) && fresh(pendingList) && fresh(watchTable)
    {
      timerList := new Event.Sentinel();
      pendingList := new Event.Sentinel();
      watchTable := new Event?[MAX_FD_EVENTS](_ => null);
      readFds, nfds := {}, 0;
      Timers, Pending, Known, Armed, Due, Fired := [], [], {}, map[], map[], [];
      new;
      assert Entries() == [];
      assert Slots() == seq(MAX_FD_EVENTS, _ => None);
    }

    /** An event in a slot is watched. */
    lemma InSlot(i: nat)
      requires Contained() && i < watchTable.Length && watchTable[i] != null
      ensures Watched(View().fds.table, watchTable[i])
    {
      assert Slots()[i] == Slot(i);
    }

    twostate lemma SameSlots()
      requires old(Contained()) && Contained() && watchTable[..] == old(watchTable[..])
      requires forall i :: 0 <= i < watchTable.Length && watchTable[i] != null ==>
                 watchTable[i].fd == old(watchTable[i].fd) && watchTable[i].persist == old(watchTable[i].persist)
      ensures Slots() == old(Slots())
    {
      forall i | 0 <= i < watchTable.Length ensures Slots()[i] == old(Slots()[i]) {
        assert watchTable[i] == watchTable[..][i];
      }
    }

    twostate lemma SameEntries()
      requires old(Contained()) && Contained() && Timers == old(Timers)
      requires forall ev :: ev in Timers ==> ev.timeout == old(ev.timeout)
      ensures Entries() == old(Entries())
    {
    }

    twostate lemma UpdatedAttrs(ev: Event)
      requires Known == old(Known) + {ev}
      requires forall x :: x in old(Known) && x != ev ==> x.fd == old(x.fd) && x.persist == old(x.persist)
      ensures Attrs() == old(Attrs())[ev := Attr(ev.fd, ev.persist)]
    {
    }

    twostate lemma SameAttrs()
      requires Known == old(Known)
      requires forall x :: x in Known ==> x.fd == old(x.fd) && x.persist == old(x.persist)
      ensures Attrs() == old(Attrs())
    {
    }

    /** Nothing but plain fields of this object has changed: everything linked is as before. */
    twostate lemma OnlyScalars()
      requires old(Valid())
      requires Timers == old(Timers) && Pending == old(Pending) && Known == old(Known)
      requires unchanged(watchTable, timerList, pendingList, Known)
      ensures Valid() && Slots() == old(Slots()) && Entries() == old(Entries()) && Attrs() == old(Attrs())
    {
      hide Entries, Attrs, Slots;
      assert watchTable[..] == old(watchTable[..]);
      SameSlots();
      SameEntries();
      SameAttrs();
    }

    /** `ril_event_set`. */
    method EventSet(ev: Event, fd: int, persist: bool)
      requires Valid() && ev != timerList && ev != pendingList && ev !in Timers
      requires Allowed(View(), Set(ev, fd, persist))
      modifies this`Known, ev
      ensures Valid() && View() == Perform(old(View()), Set(ev, fd, persist))
      ensures Known == old(Known) + {ev}
    {
      hide Ring, Watched, Attrs, Slots, Entries, BackPointers;
      forall i | 0 <= i < watchTable.Length && watchTable[i] == ev ensures false { InSlot(i); }
      ev.next, ev.prev, ev.timeout := null, null, TimeVal(0, 0);
      ev.fd, ev.index, ev.persist := fd, -1, persist;
      Known := Known + {ev};
      SameSlots();
      SameEntries();
      UpdatedAttrs(ev);
      NewBackPointers(ev);
    }

    twostate lemma NewBackPointers(ev: Event)
      requires old(Contained()) && old(BackPointers()) && Contained()
      requires Known == old(Known) + {ev} && ev.index == -1
      requires watchTable[..] == old(watchTable[..]) && ev !in watchTable[..]
      requires forall x :: x in old(Known) && x != ev ==> x.index == old(x.index)
      ensures BackPointers()
    {
      assert forall i :: 0 <= i < watchTable.Length ==> watchTable[i] == watchTable[..][i] == old(watchTable[i]);
    }

    /** The event and a free slot point at each other. */
    method FillSlot(ev: Event, i: nat)
      requires Valid() && i < watchTable.Length && watchTable[i] == null
      requires ev in Known && ev !in watchTable[..]
      modifies watchTable, ev`index
      ensures Valid() && Slots() == old(Slots())[i := Some(Watch(ev, ev.fd, ev.persist))]
      ensures Entries() == old(Entries()) && Attrs() == old(Attrs())
    {
      hide Ring, Attrs, Entries, Slots;
      assert forall j :: 0 <= j < watchTable.Length ==> watchTable[..][j] == watchTable[j];
      watchTable[i] := ev;
      ev.index := i;
      OneSlot(i, Some(Watch(ev, ev.fd, ev.persist)));
      SameEntries();
      SameAttrs();
      timerList.SameRing(Timers);
      pendingList.SameRing(Pending);
    }

    /** The body of the slot search in `ril_event_add`, on a free slot. */
    method PlaceAt(ev: Event, i: nat)
      requires Valid() && i < watchTable.Length && watchTable[i] == null
      requires Allowed(View(), Add(ev)) && FreeSlot(Slots()) == i
      modifies this`readFds, this`nfds, watchTable, ev`index
      ensures Valid() && View() == Perform(old(View()), Add(ev))
    {
      KnownAttr(ev);
      forall j | 0 <= j < watchTable.Length && watchTable[j] == ev ensures false { InSlot(j); }
      hide Valid, Watched, WatchedFd, Attrs, Entries, Slots;
      FillSlot(ev, i);
      label filled:
      readFds := readFds + {ev.fd};
      if ev.fd >= nfds { nfds := ev.fd + 1; }
      OnlyScalars@filled();
    }

    /** `ril_event_add`. */
    method EventAdd(ev: Event)
      requires Valid() && Allowed(View(), Add(ev))
      modifies this`readFds, this`nfds, watchTable, ev`index
      ensures Valid() && View() == Perform(old(View()), Add(ev))
    {
      var i := 0;
      while i < MAX_FD_EVENTS
        invariant 0 <= i <= MAX_FD_EVENTS
        invariant forall j :: 0 <= j < i ==> watchTable[j] != null
        invariant Valid() && View() == old(View())
      {
        if watchTable[i] == null {
          FreeSlotAt(i);
          PlaceAt(ev, i);
          return;
        }
        i := i + 1;
      }
      NoFreeSlot();
    }

    /** The scan for the largest watched descriptor. */
    method LargestFd() returns (n: int)
      requires Contained()
      ensures n == MaxFd(Slots())
    {
      n := 0;
      var i := 0;
      while i < MAX_FD_EVENTS
        invariant 0 <= i <= MAX_FD_EVENTS
        invariant n == MaxFd(Slots()[..i])
      {
        var rev := watchTable[i];
        assert Slots()[..i + 1][..i] == Slots()[..i] && Slots()[i] == Slot(i);
        if rev != null && rev.fd > n {
          n := rev.fd;
        }
        i := i + 1;
      }
      assert Slots()[..i] == Slots();
    }

    /** The event and its slot no longer point at each other. */
    method ClearSlot(ev: Event, index: nat)
      requires Valid() && index < watchTable.Length && watchTable[index] == ev
      modifies watchTable, ev`index
      ensures Valid() && Slots() == old(Slots())[index := None]
      ensures Entries() == old(Entries()) && Attrs() == old(Attrs())
      ensures watchTable[..] == old(watchTable[..])[index := null]
    {
      hide Ring, Attrs, Entries, Slots;
      watchTable[index] := null;
      ev.index := -1;
      OneSlot(index, None);
      SameEntries();
      SameAttrs();
      timerList.SameRing(Timers);
      pendingList.SameRing(Pending);
    }

    /** `FD_CLR`, and the recomputation of `nfds` when its descriptor goes. */
    method ForgetFd(fd: int)
      requires Valid()
      modifies this`readFds, this`nfds
      ensures Valid() && Slots() == old(Slots()) && Entries() == old(Entries()) && Attrs() == old(Attrs())
      ensures readFds == old(readFds) - {fd}
      ensures nfds == if fd + 1 == old(nfds) then MaxFd(old(Slots())) + 1 else old(nfds)
    {
      hide Ring, BackPointers, Attrs, Entries, Slots, MaxFd;
      readFds := readFds - {fd};
      OnlyScalars();
      if fd + 1 == nfds {
        var n := LargestFd();
        nfds := n + 1;
        OnlyScalars();
      }
    }

    /** `removeWatch`. */
    method RemoveWatchAt(ev: Event, index: nat)
      requires Valid() && index < watchTable.Length && watchTable[index] == ev
      modifies this`readFds, this`nfds, watchTable, ev`index
      ensures Valid() && View() == old(View()).(fds := RemoveWatch(old(View()).fds, index))
      ensures watchTable[..] == old(watchTable[..])[index := null]
    {
      SlotAt(index);
      hide Contained, Ring, BackPointers, Attrs, Entries, Slots, MaxFd;
      ClearSlot(ev, index);
      ForgetFd(ev.fd);
    }

    lemma SlotAt(i: nat)
      requires Contained() && i < watchTable.Length
      ensures Slots()[i] == Slot(i)
    {
    }

    /** `ril_event_del`. */
    method EventDel(ev: Event)
      requires Valid() && Allowed(View(), Del(ev))
      modifies this`readFds, this`nfds, watchTable, ev`index
      ensures Valid() && View() == Perform(old(View()), Del(ev))
    {
      KnownAttr(ev);
      WhereWatched(ev);
      if ev.index < 0 || ev.index >= MAX_FD_EVENTS {
        return;
      }
      RemoveWatchAt(ev, ev.index);
    }

    lemma WhereWatched(ev: Event)
      requires Valid() && ev in Known
      ensures SlotOf(Slots(), ev) == if ev.index < 0 then MAX_FD_EVENTS else ev.index
    {
      var i := SlotOf(Slots(), ev);
      if i < MAX_FD_EVENTS { assert Slots()[i] == Slot(i); }
      if ev.index >= 0 { assert Slots()[ev.index] == Slot(ev.index); }
    }

    /** The walk that keeps the timer list sorted: the first element not before `t`, or the sentinel. */
    method FindPlace(t: TimeVal) returns (list: Event, ghost k: nat)
      requires Valid()
      ensures k == CountBefore(Entries(), t) && list == Tour(timerList, Timers)[k + 1]
    {
      hide BackPointers;
      assert Tour(timerList, Timers)[0].next == Tour(timerList, Timers)[1];
      list := timerList.next;
      k := 0;
      while Before(list.timeout, t) && list != timerList
        invariant k <= |Timers| && list == Tour(timerList, Timers)[k + 1]
        invariant forall i :: 0 <= i < k ==> Before(Entries()[i].deadline, t)
        decreases |Timers| - k
      {
        assert Timers[k] == list && Tour(timerList, Timers)[k + 1].next == Tour(timerList, Timers)[k + 2];
        list := list.next;
        k := k + 1;
      }
      CountedUpTo(Entries(), t, k);
    }

    twostate lemma SameBackPointers()
      requires old(Contained()) && old(BackPointers()) && Contained()
      requires Known == old(Known) && watchTable[..] == old(watchTable[..])
      requires forall x :: x in Known ==> x.index == old(x.index)
      ensures BackPointers()
    {
      assert forall i :: 0 <= i < watchTable.Length ==> watchTable[i] == watchTable[..][i] == old(watchTable[i]);
    }

    twostate lemma InsertedEntries(ev: Event, new k: nat)
      requires old(Contained()) && Contained() && k <= old(|Timers|)
      requires Timers == old(Timers[..k]) + [ev] + old(Timers[k..])
      requires forall x :: x in old(Timers) ==> x.timeout == old(x.timeout)
      ensures Entries() == old(Entries())[..k] + [Entry(ev, ev.timeout)] + old(Entries())[k..]
    {
    }

    /** Link a timer whose deadline has been set. */
    method LinkTimer(ev: Event, list: Event, ghost k: nat)
      requires Valid() && ev in Known && ev !in Timers && ev !in Pending
      requires k <= |Timers| && list == Tour(timerList, Timers)[k + 1]
      modifies this`Timers, this`Armed, ev`next, ev`prev, timerList`next, timerList`prev, Timers`next, Timers`prev
      ensures Valid() && Known == old(Known) && Pending == old(Pending)
      ensures Armed == old(Armed)[ev := ev.timeout]
      ensures Entries() == old(Entries())[..k] + [Entry(ev, ev.timeout)] + old(Entries())[k..]
    {
      hide BackPointers, Entries;
      ghost var left := Tour(timerList, Timers)[k];
      AddToList(ev, list, timerList, Timers, k, left);
      Timers := Timers[..k] + [ev] + Timers[k..];
      Armed := Armed[ev := ev.timeout];
      pendingList.SameRing(Pending);
      SameBackPointers();
      InsertedEntries(ev, k);
    }

    /** `ril_timer_add`; without a time it does nothing. */
    method TimerAddEvent(ev: Event, tv: Option<TimeVal>, now: TimeVal)
      requires Valid() && TimersInv(View())
      requires tv.Some? ==> Allowed(View(), Arm(ev, now, tv.value)) && ev.index < 0
      modifies this`Timers, this`Armed, ev, timerList, Timers
      ensures Valid()
      ensures View() == if tv.Some? then Perform(old(View()), Arm(ev, now, tv.value)) else old(View())
    {
      if tv.Some? {
        KnownAttr(ev);
        NotInTimers(ev);
        ArmTimer(ev, TimerAdd(now, tv.value));
        hide TimersInv, Entries, Slots, Attrs, Ring, BackPointers, Allowed;
        ArmedView(ev, now, tv.value);
      }
    }

    method ArmTimer(ev: Event, deadline: TimeVal)
      requires Valid() && ev in Known && ev !in Timers && ev !in Pending && ev.index < 0
      modifies this`Timers, this`Armed, ev, timerList, Timers
      ensures Valid() && Known == old(Known) && Pending == old(Pending)
      ensures Armed == old(Armed)[ev := deadline]
      ensures Entries() == InsertTimer(old(Entries()), Entry(ev, deadline))
      ensures ev.fd == -1 && ev.persist == old(ev.persist)
      ensures forall x :: x in Known && x != ev ==> x.fd == old(x.fd) && x.persist == old(x.persist)
    {
      hide Entries, Ring, BackPointers, CountBefore;
      SetDeadline(ev, deadline);
      var list, k := FindPlace(ev.timeout);
      LinkTimer(ev, list, k);
    }

    twostate lemma ArmedView(ev: Event, new now: TimeVal, new tv: TimeVal)
      requires old(Contained()) && Contained() && Allowed(old(View()), Arm(ev, now, tv))
      requires Known == old(Known) && Pending == old(Pending) && Due == old(Due) && Fired == old(Fired)
      requires readFds == old(readFds) && nfds == old(nfds) && watchTable[..] == old(watchTable[..])
      requires Armed == old(Armed)[ev := TimerAdd(now, tv)]
      requires Entries() == InsertTimer(old(Entries()), Entry(ev, TimerAdd(now, tv)))
      requires ev in Known && ev.fd == -1 && ev.persist == old(View()).attrs[ev].persist && old(ev !in watchTable[..])
      requires forall x :: x in Known && x != ev ==> x.fd == old(x.fd) && x.persist == old(x.persist)
      ensures View() == Perform(old(View()), Arm(ev, now, tv))
    {
      hide Entries, Slots, Attrs, InsertTimer, TimerAdd, Watched;
      assert forall i :: 0 <= i < watchTable.Length ==> watchTable[i] == watchTable[..][i];
      SameSlots();
      UpdatedAttrs(ev);
    }

    /** The deadline and the invalid descriptor of a timer. */
    method SetDeadline(ev: Event, deadline: TimeVal)
      requires Valid() && ev in Known && ev !in Timers && ev.index < 0
      modifies ev`fd, ev`timeout
      ensures Valid() && ev.timeout == deadline && ev.fd == -1
      ensures Entries() == old(Entries())
    {
      hide Entries, Ring, BackPointers;
      ev.fd := -1;
      ev.timeout := deadline;
      timerList.SameRing(Timers);
      pendingList.SameRing(Pending);
      SameBackPointers();
      SameEntries();
    }

    /** Everything but the lists, the links and the history is as before. */
    twostate predicate LinksOnly()
      reads this, watchTable, Known
    {
      && Known == old(Known) && readFds == old(readFds) && nfds == old(nfds)
      && watchTable[..] == old(watchTable[..])
      && Armed == old(Armed) && Fired == old(Fired)
      && forall x :: x in Known ==>
           x.fd == old(x.fd) && x.persist == old(x.persist) && x.index == old(x.index) && x.timeout == old(x.timeout)
    }

    lemma FirstOnce()
      requires Valid() && Timers != []
      ensures Timers[0] !in Timers[1..] && Timers[0] !in Pending
    {
    }

    method UnlinkFirst(tev: Event) returns (next: Event)
      requires Valid() && Timers != [] && Timers[0] == tev
      modifies this`Timers, timerList`next, timerList`prev, Known`next, Known`prev
      ensures Valid() && LinksOnly()
      ensures Timers == old(Timers)[1..] && tev !in Timers && tev !in Pending
      ensures next == Tour(timerList, Timers)[1]
    {
      hide BackPointers;
      ghost var right := Tour(timerList, Timers)[2];
      FirstOnce();
      assert Tour(timerList, Timers)[1].next == right;
      next := tev.next;
      assert Timers[..0] + Timers[1..] == Timers[1..];
      RemoveFromList(tev, timerList, Timers, 0, timerList, right);
      hide Ring;
      Timers := Timers[1..];
      pendingList.SameRing(Pending);
      SameBackPointers();
    }

    /** `addToList(ev, &pending_list)`. */
    method LinkPending(ev: Event)
      requires Valid() && ev in Known && ev !in Timers && ev !in Pending
      modifies this`Pending, pendingList`next, pendingList`prev, Known`next, Known`prev
      ensures Valid() && LinksOnly()
      ensures Pending == old(Pending) + [ev]
    {
      hide BackPointers;
      ghost var last := Tour(pendingList, Pending)[|Pending|];
      AddToList(ev, pendingList, pendingList, Pending, |Pending|, last);
      assert Pending[..|Pending|] + [ev] + Pending[|Pending|..] == Pending + [ev];
      Pending := Pending + [ev];
      timerList.SameRing(Timers);
      SameBackPointers();
    }

    method MoveFirst(tev: Event) returns (next: Event)
      requires Valid() && Timers != [] && Timers[0] == tev
      modifies this`Timers, this`Pending, timerList, pendingList, Known
      ensures Valid() && LinksOnly()
      ensures Timers == old(Timers)[1..] && Pending == old(Pending) + [tev]
      ensures next == Tour(timerList, Timers)[1]
    {
      hide Ring, BackPointers;
      next := UnlinkFirst(tev);
      LinkPending(tev);
    }

    /** The loop of `processTimeouts`. */
    method MoveDue(now: TimeVal) returns (ghost j: nat)
      requires Valid()
      modifies this`Timers, this`Pending, timerList, pendingList, Known
      ensures Valid() && LinksOnly()
      ensures j == CountBefore(old(Entries()), now)
      ensures Timers == old(Timers)[j..] && Pending == old(Pending) + old(Timers)[..j]
    {
      j := 0;
      assert Tour(timerList, Timers)[0].next == Tour(timerList, Timers)[1];
      var tev := timerList.next;
      hide Ring, BackPointers;
      while tev != timerList && Before(tev.timeout, now)
        invariant Valid() && LinksOnly()
        invariant j <= |old(Timers)| && Timers == old(Timers)[j..] && Pending == old(Pending) + old(Timers)[..j]
        invariant forall i :: 0 <= i < j ==> Before(old(Entries())[i].deadline, now)
        invariant tev == Tour(timerList, Timers)[1]
        decreases |Timers|
      {
        assert tev == Timers[0] && tev == old(Timers)[j];
        tev := MoveFirst(tev);
        j := j + 1;
      }
      CountedUpTo(old(Entries()), now, j);
    }

    /** `processTimeouts`, with the clock read once. */
    method ProcessTimeouts(now: TimeVal)
      requires Valid()
      modifies this`Timers, this`Pending, this`Due, timerList, pendingList, Known
      ensures Valid() && View() == Timeouts(old(View()), now)
    {
      hide Contained, Ring, BackPointers, Timeouts, CountBefore, Entries;
      ghost var j := MoveDue(now);
      label moved:
      Due := Due + Stamped(old(Timers)[..j], now);
      OnlyScalars@moved();
      TimedOut(j, now);
    }

    /** The view after the first `j` timers have moved. */
    twostate lemma TimedOut(new j: nat, new now: TimeVal)
      requires old(Contained()) && Contained() && LinksOnly()
      requires j <= old(|Timers|) && j == CountBefore(old(Entries()), now)
      requires Timers == old(Timers)[j..] && Pending == old(Pending) + old(Timers)[..j]
      requires Due == old(Due) + Stamped(old(Timers)[..j], now)
      ensures View() == Timeouts(old(View()), now)
    {
      SameSlots();
      SameAttrs();
      assert Entries() == old(Entries())[j..];
      assert Events(old(Entries())[..j]) == old(Timers)[..j];
    }

    /** `calcNextTimeout`: nothing when no timer is armed, else how long to sleep. */
    method CalcNextTimeout(now: TimeVal) returns (tv: Option<TimeVal>)
      requires Valid()
      ensures tv == NextTimeout(View().timers, now)
    {
      assert Tour(timerList, Timers)[0].next == Tour(timerList, Timers)[1];
      var tev := timerList.next;
      if tev == timerList {
        tv := None;
      } else if Before(now, tev.timeout) {
        tv := Some(TimerSub(tev.timeout, now));
      } else {
        tv := Some(TimeVal(0, 0));
      }
    }

    /** While only timers are pending, a watched event is on neither list. */
    lemma WatchedUnlinked(i: nat)
      requires Valid() && Inv(View()) && i < watchTable.Length && watchTable[i] != null
      requires forall ev :: ev in Pending ==> ev in Armed
      ensures watchTable[i] !in Timers && watchTable[i] !in Pending
    {
      assert Slots()[i] == Slot(i);
      assert View().fds.table[i].value.ev !in View().armed;
      NotInTimers(watchTable[i]);
    }

    lemma AllUnlinked()
      requires Valid() && Inv(View()) && forall ev :: ev in Pending ==> ev in Armed
      ensures UnlinkedFrom(0)
    {
      forall k | 0 <= k < watchTable.Length && watchTable[k] != null
        ensures watchTable[k] !in Timers && watchTable[k] !in Pending
      {
        WatchedUnlinked(k);
      }
    }

    /** Queue one ready event, and drop its watch unless it is persistent. */
    method QueueReady(rev: Event, i: nat)
      requires Valid() && i < watchTable.Length && watchTable[i] == rev
      requires rev !in Timers && rev !in Pending
      modifies this`Pending, this`readFds, this`nfds, watchTable, pendingList, Known
      ensures Valid() && Known == old(Known) && Timers == old(Timers)
      ensures View() == old(View()).(
                fds := if rev.persist then old(View()).fds else RemoveWatch(old(View()).fds, i),
                pending := old(Pending) + [rev])
      ensures rev.persist == old(rev.persist)
      ensures watchTable[..] == old(watchTable[..]) || watchTable[..] == old(watchTable[..])[i := null]
    {
      hide Ring, BackPointers, Attrs, Entries, Slots, MaxFd;
      LinkPending(rev);
      SameSlots();
      SameEntries();
      SameAttrs();
      if !rev.persist {
        RemoveWatchAt(rev, i);
      }
    }

    /** The events in slots from `i` on are on neither list. */
    ghost predicate UnlinkedFrom(i: nat)
      reads this, watchTable
    {
      forall k :: i <= k < watchTable.Length && watchTable[k] != null ==> watchTable[k] !in Timers && watchTable[k] !in Pending
    }

    /** The body of the loop of `processReadReadies` on slot `i`. */
    method CheckSlot(rfds: set<int>, n: int, i: nat) returns (n': int, ghost q: seq<Event>)
      requires Valid() && i < watchTable.Length && n > 0 && UnlinkedFrom(i)
      modifies this`Pending, this`readFds, this`nfds, watchTable, pendingList, Known
      ensures Valid() && Known == old(Known) && Timers == old(Timers) && UnlinkedFrom(i + 1)
      ensures Queued(old(View()), View(), q)
      ensures var before := ReadiesFrom(old(View()).fds, rfds, n, i);
              var after := ReadiesFrom(View().fds, rfds, n', i + 1);
              before.0 == after.0 && before.1 == q + after.1
    {
      SlotAt(i);
      hide Ring, RemoveWatch, Attrs, Entries, Slots;
      var rev := watchTable[i];
      n', q := n, [];
      if rev != null && rev.fd in rfds {
        QueueReady(rev, i);
        q := [rev];
        n' := n - 1;
      }
      ghost var rest := ReadiesFrom(View().fds, rfds, n', i + 1).1;
      assert [] + rest == rest;
    }

    /** `processReadReadies` with the descriptors `select` left in the set. */
    method ProcessReadReadies(rfds: set<int>)
      requires Valid() && Inv(View())
      requires forall ev :: ev in Pending ==> ev in Armed
      modifies this`Pending, this`readFds, this`nfds, watchTable, pendingList, Known
      ensures Valid() && View() == Readies(old(View()), rfds)
    {
      AllUnlinked();
      assert watchTable.Length == |View().fds.table| == MAX_FD_EVENTS;
      hide Contained, Ring, BackPointers, Inv, View, ReadiesFrom, UnlinkedFrom, Queued;
      ghost var start := View();
      QueuedNothing(start);
      var n := |rfds|;
      var i := 0;
      ghost var queued: seq<Event> := [];
      while i < MAX_FD_EVENTS && n > 0
        invariant 0 <= i <= MAX_FD_EVENTS
        invariant Valid() && UnlinkedFrom(i) && Known == old(Known)
        invariant Queued(start, View(), queued) && |View().fds.table| == MAX_FD_EVENTS
        invariant ReadiesFrom(View().fds, rfds, n, i).0 == ReadiesFrom(start.fds, rfds, |rfds|, 0).0
        invariant queued + ReadiesFrom(View().fds, rfds, n, i).1 == ReadiesFrom(start.fds, rfds, |rfds|, 0).1
      {
        ghost var s := View();
        ghost var q;
        n, q := CheckSlot(rfds, n, i);
        QueuedTwice(start, s, View(), queued, q);
        QueuedLength(s, View(), q);
        Requeue(queued, q, ReadiesFrom(View().fds, rfds, n, i + 1).1);
        queued := queued + q;
        i := i + 1;
      }
      NoMoreReadies(View().fds, rfds, n, i);
      assert queued + [] == queued;
      AllQueued(start, View(), queued, rfds);
    }

    method UnlinkPending(ev: Event) returns (next: Event)
      requires Valid() && Pending != [] && Pending[0] == ev
      modifies this`Pending, pendingList`next, pendingList`prev, Known`next, Known`prev
      ensures Valid() && LinksOnly() && Pending == old(Pending)[1..]
      ensures next == Tour(pendingList, Pending)[1]
    {
      hide BackPointers;
      ghost var right := Tour(pendingList, Pending)[2];
      assert Tour(pendingList, Pending)[1].next == right;
      next := ev.next;
      assert Pending[..0] + Pending[1..] == Pending[1..];
      RemoveFromList(ev, pendingList, Pending, 0, pendingList, right);
      hide Ring;
      Pending := Pending[1..];
      timerList.SameRing(Timers);
      SameBackPointers();
    }

    /** Unlink the first pending event: the part of a `firePending` turn before the callback. */
    method TakePending(ev: Event) returns (next: Event)
      requires Valid() && Pending != [] && Pending[0] == ev
      modifies this`Pending, this`Fired, pendingList`next, pendingList`prev, Known`next, Known`prev
      ensures Valid() && View() == FireOne(old(View()))
      ensures Known == old(Known)
      ensures next == Tour(pendingList, Pending)[1]
    {
      hide Contained, Ring, BackPointers, Slots, Entries, Attrs;
      next := UnlinkPending(ev);
      label unlinked:
      if ev in Armed { Fired := Fired + [ev]; }
      OnlyScalars@unlinked();
      SameSlots();
      SameEntries();
      SameAttrs();
    }

    lemma Unwatched(ev: Event)
      requires Valid() && ev in Known && !Watched(View().fds.table, ev)
      ensures ev.index < 0
    {
      if ev.index >= 0 { InSlot(ev.index); }
    }

    /** One call into the module. */
    method Call(a: Action<Event>)
      requires Valid() && TimersInv(View()) && Allowed(View(), a)
      requires a.Set? ==> a.ev != timerList && a.ev != pendingList
      modifies this`Known, this`Timers, this`Armed, this`readFds, this`nfds, watchTable, timerList, Known, a.ev
      ensures Valid() && View() == Perform(old(View()), a)
      ensures Known == old(Known) + {a.ev}
    {
      if !a.Set? { KnownAttr(a.ev); }
      if !a.Del? { NotInTimers(a.ev); }
      if a.Arm? { Unwatched(a.ev); }
      hide Ring, BackPointers, TimersInv, Attrs, Entries, Slots, View, Perform;
      match a
      case Set(ev, fd, persist) =>
        EventSet(ev, fd, persist);
      case Add(ev) =>
        EventAdd(ev);
      case Del(ev) =>
        EventDel(ev);
      case Arm(ev, now, tv) =>
        TimerAddEvent(ev, Some(tv), now);
    }

    /** The events of a script are events of the callers, not the list sentinels. */
    ghost predicate OwnEvents(actions: seq<Action<Event>>, U: set<Event>) {
      forall i :: 0 <= i < |actions| ==> actions[i].ev in U
    }

    ghost predicate Within(U: set<Event>)
      reads this
    {
      Known <= U && timerList !in U && pendingList !in U
    }

    /** A sequence of calls by a callback or another thread. */
    method CallAll(actions: seq<Action<Event>>, ghost U: set<Event>)
      requires Valid() && Inv(View()) && Within(U)
      requires LegalAll(View(), actions) && OwnEvents(actions, U)
      modifies this`Known, this`Timers, this`Armed, this`readFds, this`nfds, watchTable, timerList, U
      ensures Valid() && Inv(View()) && Within(U)
      ensures View() == PerformAll(old(View()), actions)
    {
      hide Ring, BackPointers, Attrs, Entries, Slots, Perform, Allowed, FdsInv, HistoryInv, WatchInv, TimersInv;
      ghost var start := View();
      var i := 0;
      while i < |actions|
        invariant 0 <= i <= |actions|
        invariant Valid() && Inv(View()) && Within(U)
        invariant LegalAll(View(), actions[i..])
        invariant PerformAll(View(), actions[i..]) == PerformAll(start, actions)
      {
        PerformKeeps(View(), actions[i]);
        assert actions[i..][0] == actions[i] && actions[i..][1..] == actions[i + 1..];
        Call(actions[i]);
        i := i + 1;
      }
    }

    /** `firePending`: unlink each pending event, then run its callback. */
    method FirePending(callbacks: seq<seq<Action<Event>>>, ghost U: set<Event>)
      requires Valid() && Inv(View()) && Within(U)
      requires LegalFire(View(), callbacks)
      requires forall i :: 0 <= i < |callbacks| ==> OwnEvents(callbacks[i], U)
      modifies this, watchTable, timerList, pendingList, U
      ensures Valid() && Inv(View()) && Within(U)
      ensures View() == FireAll(old(View()), callbacks)
    {
      assert Tour(pendingList, Pending)[0].next == Tour(pendingList, Pending)[1];
      var ev := pendingList.next;
      hide Ring, BackPointers, Attrs, Entries, Slots, PerformAll, Inv;
      ghost var start := View();
      var j := 0;
      while ev != pendingList
        invariant 0 <= j <= |callbacks|
        invariant Valid() && Inv(View()) && Within(U)
        invariant LegalFire(View(), callbacks[j..])
        invariant ev == Tour(pendingList, Pending)[1]
        invariant FireAll(View(), callbacks[j..]) == FireAll(start, callbacks)
        decreases |Pending|
      {
        FireOneKeeps(View());
        var next := TakePending(ev);
        if j < |callbacks| {
          assert callbacks[j..][0] == callbacks[j] && callbacks[j..][1..] == callbacks[j + 1..];
          CallAll(callbacks[j], U);
          j := j + 1;
        }
        ev := next;
      }
    }

    /** One pass of `ril_event_loop`: `select` is told the watched descriptors and a wait no longer
        than until the earliest deadline; what it reports comes from outside. */
    method Pass(it: Iteration<Event>, ghost U: set<Event>)
      requires Valid() && Inv(View()) && Within(U) && Pending == []
      requires LegalIteration(View(), it)
      requires OwnEvents(it.asleep, U) && OwnEvents(it.between, U)
      requires forall i :: 0 <= i < |it.callbacks| ==> OwnEvents(it.callbacks[i], U)
      modifies this, watchTable, timerList, pendingList, U
      ensures Valid() && Inv(View()) && Within(U) && Pending == []
      ensures View() == Iterate(old(View()), it)
    {
      hide Ring, BackPointers, Attrs, Entries, Slots, PerformAll, Inv, FireAll, ReadiesFrom,
        Perform, Allowed, LegalAll, LegalFire, OwnEvents;
      ghost var s := View();
      IterateKeeps(s, it);
      var wait := CalcNextTimeout(it.top);
      CallAll(it.asleep, U);
      if it.selected.Ready? {
        ghost var a := View();
        TimeoutsKeeps(a, it.now);
        TimersOf(a, it.now);
        ProcessTimeouts(it.now);
        CallAll(it.between, U);
        ghost var c := View();
        ProcessReadReadies(it.selected.rfds);
        ReadiesKeeps(c, it.selected.rfds);
        FirePending(it.callbacks, U);
      }
    }

    /** Any number of passes: the loop does what `EventRuns.Run` says, so every run keeps its invariant
        and is back at `select` with nothing pending. */
    method Loop(its: seq<Iteration<Event>>, ghost U: set<Event>)
      requires Valid() && Inv(View()) && Within(U) && Pending == []
      requires LegalRun(View(), its)
      requires forall i :: 0 <= i < |its| ==> OwnEvents(its[i].asleep, U) && OwnEvents(its[i].between, U)
      requires forall i, j :: 0 <= i < |its| && 0 <= j < |its[i].callbacks| ==> OwnEvents(its[i].callbacks[j], U)
      modifies this, watchTable, timerList, pendingList, U
      ensures Valid() && Inv(View()) && Within(U) && Pending == []
      ensures View() == Run(old(View()), its)
    {
      hide Ring, BackPointers, Attrs, Entries, Slots, Inv, Iterate, LegalIteration, OwnEvents;
      ghost var start := View();
      var i := 0;
      while i < |its|
        invariant 0 <= i <= |its|
        invariant Valid() && Inv(View()) && Within(U) && Pending == []
        invariant View() == Run(start, its[..i])
      {
        assert its[..i + 1][..i] == its[..i];
        Pass(its[i], U);
        i := i + 1;
      }
      assert its[..i] == its;
    }

    lemma NotInTimers(ev: Event)
      requires Contained() && TimersInv(View()) && ev !in Armed
      ensures ev !in Timers
    {
      forall i | 0 <= i < |Timers| ensures Timers[i] in Armed { assert View().timers[i].ev in View().armed; }
    }

    lemma FreeSlotAt(i: nat)
      requires Contained() && i < watchTable.Length && watchTable[i] == null
      requires forall j :: 0 <= j < i ==> watchTable[j] != null
      ensures FreeSlot(Slots()) == i
    {
      forall j | 0 <= j < i ensures Slots()[j].Some? { assert Slots()[j] == Slot(j); }
      assert Slots()[i] == Slot(i);
    }

    lemma NoFreeSlot()
      requires Contained()
      requires forall j :: 0 <= j < watchTable.Length ==> watchTable[j] != null
      ensures FreeSlot(Slots()) == MAX_FD_EVENTS
    {
      forall j | 0 <= j < watchTable.Length ensures Slots()[j].Some? { assert Slots()[j] == Slot(j); }
    }

    lemma KnownAttr(ev: Event)
      requires Contained() && ev in View().attrs
      ensures ev in Known && View().attrs[ev] == Attr(ev.fd, ev.persist)
    {
    }

    /** Changing one slot of the table changes one slot of the view. */
    twostate lemma OneSlot(new i: nat, w: Option<Watch<Event>>)
      requires old(Contained()) && Contained() && i < watchTable.Length
      requires Slot(i) == w
      requires forall j :: 0 <= j < watchTable.Length && j != i ==> watchTable[j] == old(watchTable[j])
      requires forall j :: 0 <= j < watchTable.Length && j != i && watchTable[j] != null ==>
                 watchTable[j].fd == old(watchTable[j].fd) && watchTable[j].persist == old(watchTable[j].persist)
      ensures Slots() == old(Slots())[i := w]
    {
      forall j | 0 <= j < watchTable.Length ensures Slots()[j] == old(Slots())[i := w][j] {
        assert Slots()[j] == Slot(j);
        assert j != i ==> old(Slots()[j]) == old(Slot(j));
      }
    }
  }
}
