/** What every run of the daemon keeps: each part of the invariant with the steps that keep it, and the
    theorems over all runs. */
module RilRuns {
  import opened Wrappers
  import opened EventSpec
  import opened RilProtocol
  import opened Bytes

  // ---- requests ----

  /** Pending requests are distinct, and each is the one that was received, possibly cancelled since. */
  ghost predicate PendingInv(s: State) {
    && (forall id :: id in s.origin <==> 0 <= id < s.nextId)
    && (forall id :: id in s.origin ==> s.origin[id].id == id && !s.origin[id].cancelled && s.origin[id].conn <= s.conn)
    && (forall i :: 0 <= i < |s.pending| ==>
          var r := s.pending[i]; r.id in s.origin && r.(cancelled := false) == s.origin[r.id])
    && (forall i, j :: 0 <= i < j < |s.pending| ==> s.pending[i].id != s.pending[j].id)
  }

  /** What still waits for an answer was read on the connection that is open now. */
  ghost predicate CurrentInv(s: State) {
    forall i :: 0 <= i < |s.pending| && !s.pending[i].local && !s.pending[i].cancelled ==>
      s.fdCommand >= 0 && s.pending[i].conn == s.conn
  }

  predicate Pending(s: State, id: nat) { Find(s.pending, id) < |s.pending| }

  ghost predicate Answers(e: Sent, id: nat) { e.packet.Response? && e.packet.request == id }

  /** Every response answers a remote request that is no longer pending, with its token, on the connection
      it was read on; no two responses answer the same request. */
  ghost predicate WireInv(s: State) {
    && (forall k :: 0 <= k < |s.wire| && s.wire[k].packet.Response? ==>
          var p := s.wire[k].packet;
          p.request in s.origin && !Pending(s, p.request)
          && !s.origin[p.request].local && s.origin[p.request].token == p.token && s.origin[p.request].conn == s.wire[k].conn)
    && (forall k, l :: 0 <= k < l < |s.wire| && s.wire[k].packet.Response? && s.wire[l].packet.Response? ==>
          s.wire[k].packet.request != s.wire[l].packet.request)
  }

  ghost predicate RequestsInv(s: State) { PendingInv(s) && CurrentInv(s) && WireInv(s) }

  /** `t` differs from `s` in no request and no watch, and has sent no response. */
  ghost predicate Quiet(s: State, t: State) {
    && t.pending == s.pending && t.nextId == s.nextId && t.origin == s.origin
    && t.conn == s.conn && t.fdCommand == s.fdCommand && t.accepting == s.accepting && t.fds == s.fds && t.boot == s.boot
    && s.wire <= t.wire && (s.fdCommand < 0 ==> t.wire == s.wire)
    && forall k :: |s.wire| <= k < |t.wire| ==> !t.wire[k].packet.Response? && t.wire[k].conn == s.conn
  }

  lemma QuietKeeps(s: State, t: State)
    requires RequestsInv(s) && Quiet(s, t)
    ensures RequestsInv(t)
  {
    forall k | 0 <= k < |t.wire| && t.wire[k].packet.Response? ensures k < |s.wire| && t.wire[k] == s.wire[k] {
      if k < |s.wire| { assert t.wire[..|s.wire|][k] == s.wire[k]; }
    }
  }

  lemma QuietTrans(s: State, t: State, u: State)
    requires Quiet(s, t) && Quiet(t, u)
    ensures Quiet(s, u)
  {
    assert u.wire[..|s.wire|] == u.wire[..|t.wire|][..|s.wire|];
    forall k | |s.wire| <= k < |u.wire| ensures !u.wire[k].packet.Response? && u.wire[k].conn == s.conn {
      if k < |t.wire| { assert u.wire[k] == u.wire[..|t.wire|][k]; }
    }
  }

  /** Quiet, and nothing of NITZ sent, received or stored. */
  ghost predicate Calm(s: State, t: State) {
    && Quiet(s, t) && t.lastNitz == s.lastNitz && t.nextNitz == s.nextNitz
    && forall k :: |s.wire| <= k < |t.wire| ==> !t.wire[k].packet.Nitz?
  }

  lemma CalmTrans(s: State, t: State, u: State)
    requires Calm(s, t) && Calm(t, u)
    ensures Calm(s, u)
  {
    QuietTrans(s, t, u);
    forall k | |s.wire| <= k < |u.wire| ensures !u.wire[k].packet.Nitz? {
      if k < |t.wire| { assert u.wire[k] == u.wire[..|t.wire|][k]; }
    }
  }

  // ---- wake timers ----

  /** The uncancelled wake timers are exactly the latest one, if that has not gone off yet; it goes
      off a second after the latest notification that took the lock. */
  ghost predicate TimersInv(s: State) {
    && (forall id :: id in s.timers ==> id < s.nextTimer)
    && (forall id :: id in s.timers && s.timers[id].Wake? && !s.timers[id].cancelled ==> s.lastWake == Some(id))
    && (s.lastWake.Some? ==> s.lastWake.value in s.timers
                             && s.timers[s.lastWake.value] == Wake(false, s.lastWakeAt + WAKE_TIMEOUT))
  }

  /** The lock is held only while a timer is there to release it. */
  ghost predicate WakeInv(s: State) { TimersInv(s) && (s.held ==> s.lastWake.Some?) }

  // ---- sending keeps all this ----

  /** What a notification keeps, and that one which takes the lock leaves a timer to release it. */
  ghost predicate Notified(s: State, t: State, code: int) {
    && (TimersInv(s) ==> TimersInv(t))
    && (WakesPartially(code) && TimersInv(s) ==> t.lastWake.Some?)
    && (WakeInv(s) ==> WakeInv(t))
  }

  lemma NotifyKeeps(s: State, code: int, p: Packet, now: int)
    requires !p.Response?
    ensures var t := Notify(s, code, p, now);
            Notified(s, t, code) && Quiet(s, t) && (!p.Nitz? ==> Calm(s, t))
  {
  }

  lemma AnnounceKeeps(s: State, changed: bool, stored: State, code: int, now: int)
    requires stored == s.(voiceTech := stored.voiceTech, subscription := stored.subscription, simStatus := stored.simStatus)
    ensures var t := Announce(s, changed, stored, code, now); Calm(s, t) && (TimersInv(s) ==> TimersInv(t))
  {
    NotifyKeeps(stored, code, Unsol(code), now);
    hide Notify;
  }

  lemma ProcessRadioStateKeeps(s: State, r: Radio, now: int)
    ensures var t := ProcessRadioState(s, r, now).0; Calm(s, t) && (TimersInv(s) ==> TimersInv(t))
  {
    if !OldRadio(r) { assert ProcessRadioState(s, r, now).0 == s; } else {
      var tech, source, sim := DecodeVoiceTech(r), DecodeSubscription(r), DecodeSimStatus(r);
      hide Announce, Calm, TimersInv;
      var a := Announce(s, tech != s.voiceTech, s.(voiceTech := tech), VOICE_RADIO_TECH_CHANGED, now);
      AnnounceKeeps(s, tech != s.voiceTech, s.(voiceTech := tech), VOICE_RADIO_TECH_CHANGED, now);
      var b := Announce(a, Is3gpp2(tech) && source != a.subscription, a.(subscription := source), SUBSCRIPTION_SOURCE_CHANGED, now);
      AnnounceKeeps(a, Is3gpp2(tech) && source != a.subscription, a.(subscription := source), SUBSCRIPTION_SOURCE_CHANGED, now);
      AnnounceKeeps(b, sim != b.simStatus, b.(simStatus := sim), SIM_STATUS_CHANGED, now);
      var c := Announce(b, sim != b.simStatus, b.(simStatus := sim), SIM_STATUS_CHANGED, now);
      CalmTrans(s, a, b);
      CalmTrans(s, b, c);
    }
  }

  /** The radio state announced with the lock already taken, and then reported. */
  lemma RadioKeeps(s: State, radio: Radio, now: int)
    ensures var t := Unsolicited(s, RADIO_STATE_CHANGED, true, radio, now);
            Calm(s, t) && (WakeInv(s) ==> WakeInv(t))
  {
    hide ProcessRadioState, Notify, Quiet;
    var taken := s.(held := true);
    LockOnly(s, true);
    var r := ProcessRadioState(taken, radio, now);
    ProcessRadioStateKeeps(taken, radio, now);
    NotifyKeeps(r.0, RADIO_STATE_CHANGED, RadioState(r.1), now);
    CalmTrans(s, taken, r.0);
    CalmTrans(s, r.0, Notify(r.0, RADIO_STATE_CHANGED, RadioState(r.1), now));
  }

  lemma LockOnly(s: State, held: bool)
    ensures Calm(s, s.(held := held))
  {
  }

  lemma UnsolicitedKeeps(s: State, code: int, ok: bool, radio: Radio, now: int)
    ensures var t := Unsolicited(s, code, ok, radio, now);
            Quiet(s, t) && (code != NITZ_TIME_RECEIVED ==> Calm(s, t)) && (WakeInv(s) ==> WakeInv(t))
  {
    hide ProcessRadioState, Notify;
    LockOnly(s, false);
    LockOnly(s, s.held);
    if UNSOL_BASE <= code < UNSOL_BASE + NUM_UNSOL && ok {
      if code == RADIO_STATE_CHANGED {
        RadioKeeps(s, radio, now);
      } else if code == NITZ_TIME_RECEIVED {
        NotifyKeeps(s.(nextNitz := s.nextNitz + 1), code, Nitz(s.nextNitz), now);
      } else {
        NotifyKeeps(s, code, Unsol(code), now);
      }
    }
  }

  lemma GreetKeeps(s: State, radio: Radio, now: int)
    requires s.lastNitz.Some? ==> s.lastNitz.value.Nitz?
    ensures var t := Greet(s, radio, now); Quiet(s, t) && (WakeInv(s) ==> WakeInv(t))
  {
    var a := Unsolicited(s, RIL_CONNECTED, true, radio, now);
    var b := Unsolicited(a, RADIO_STATE_CHANGED, true, radio, now);
    UnsolicitedKeeps(s, RIL_CONNECTED, true, radio, now);
    UnsolicitedKeeps(a, RADIO_STATE_CHANGED, true, radio, now);
    hide Unsolicited;
    QuietTrans(s, a, b);
    QuietTrans(s, b, Greet(s, radio, now));
  }

  /** `t` differs from `s` only in requests, decoded values, and packets sent, none of them NITZ. */
  ghost predicate RequestsOnly(s: State, t: State) {
    && t == s.(pending := t.pending, nextId := t.nextId, origin := t.origin, wire := t.wire,
               voiceTech := t.voiceTech, subscription := t.subscription)
    && s.nextId <= t.nextId && (forall id :: id in s.origin ==> id in t.origin && t.origin[id] == s.origin[id])
    && s.wire <= t.wire && (s.fdCommand < 0 ==> t.wire == s.wire)
    && forall k :: |s.wire| <= k < |t.wire| ==> !t.wire[k].packet.Nitz? && t.wire[k].conn == s.conn
  }

  lemma RequestsOnlyTrans(s: State, t: State, u: State)
    requires RequestsOnly(s, t) && RequestsOnly(t, u)
    ensures RequestsOnly(s, u)
  {
    forall k | |s.wire| <= k < |u.wire| ensures !u.wire[k].packet.Nitz? && u.wire[k].conn == s.conn {
      if k < |t.wire| { assert u.wire[k] == t.wire[k]; }
    }
  }

  lemma EnqueueKeeps(s: State, token: int, code: int, local: bool)
    requires RequestsInv(s) && (local || s.fdCommand >= 0)
    ensures RequestsInv(Enqueue(s, token, code, local))
  {
    var t := Enqueue(s, token, code, local);
    assert t.pending[0].id == s.nextId;
    assert forall i :: 0 < i < |t.pending| ==> t.pending[i] == s.pending[i - 1];
    assert t.pending[1..] == s.pending;
    assert forall id :: id != s.nextId ==> (Pending(t, id) <==> Pending(s, id));
  }

  /** A removed request is gone, and all others stay. */
  lemma DequeueRemoves(s: State, id: nat)
    requires PendingInv(s)
    ensures var t := s.(pending := Dequeue(s.pending, id));
            && PendingInv(t) && !Pending(t, id)
            && (forall other :: other != id && !Pending(s, other) ==> !Pending(t, other))
            && (CurrentInv(s) ==> CurrentInv(t))
  {
    var i, t := Find(s.pending, id), s.(pending := Dequeue(s.pending, id));
    hide Find;
    forall k | 0 <= k < |t.pending| ensures t.pending[k] in s.pending && t.pending[k].id != id {
      if i < |s.pending| {
        var from := if k < i then k else k + 1;
        assert t.pending[k] == s.pending[from];
        assert from < i ==> s.pending[from].id != s.pending[i].id;
      }
    }
    DequeueDistinct(s.pending, id);
  }

  lemma DequeueDistinct(pending: seq<Request>, id: nat)
    requires forall i, j :: 0 <= i < j < |pending| ==> pending[i].id != pending[j].id
    ensures var r := Dequeue(pending, id); forall i, j :: 0 <= i < j < |r| ==> r[i].id != r[j].id
  {
    var at := Find(pending, id);
    hide Find;
    if at < |pending| {
      var r := Dequeue(pending, id);
      forall i, j | 0 <= i < j < |r| ensures r[i].id != r[j].id {
        var x, y := if i < at then i else i + 1, if j < at then j else j + 1;
        assert r[i] == pending[x] && r[j] == pending[y] && x < y;
      }
    }
  }

  lemma CompleteKeeps(s: State, id: nat, e: Errno)
    requires RequestsInv(s)
    ensures RequestsInv(Complete(s, id, e)) && RequestsOnly(s, Complete(s, id, e))
    ensures !Pending(Complete(s, id, e), id)
  {
    var i := Find(s.pending, id);
    if i < |s.pending| {
      DequeueRemoves(s, id);
      var t := s.(pending := Dequeue(s.pending, id));
      hide Dequeue, Find;
      assert Pending(s, id);
      if !s.pending[i].local && !s.pending[i].cancelled { SendKeeps(t, Response(id, s.pending[i].token, e)); }
      hide CurrentInv, WireInv, Pending;
    }
  }

  /** The response to a request that was just dequeued. */
  lemma SendKeeps(s: State, p: Packet)
    requires RequestsInv(s) && p.Response? && s.fdCommand >= 0
    requires p.request in s.origin && !Pending(s, p.request) && !s.origin[p.request].local
             && s.origin[p.request].token == p.token && s.origin[p.request].conn == s.conn
    requires forall k :: 0 <= k < |s.wire| ==> !Answers(s.wire[k], p.request)
    ensures RequestsInv(Send(s, p))
  {
    hide Find;
    assert forall id :: Pending(Send(s, p), id) == Pending(s, id);
  }

  lemma CancelKeeps(s: State)
    requires PendingInv(s) && WireInv(s)
    ensures var t := s.(pending := CancelAll(s.pending)); RequestsInv(t) && forall id :: Pending(t, id) <==> Pending(s, id)
  {
    var t := s.(pending := CancelAll(s.pending));
    forall id ensures Pending(t, id) <==> Pending(s, id) { SameIds(s.pending, t.pending, id); }
    assert forall i :: 0 <= i < |t.pending| ==> t.pending[i].(cancelled := false) == s.pending[i].(cancelled := false);
  }

  lemma SameIds(a: seq<Request>, b: seq<Request>, id: nat)
    requires |a| == |b| && forall i :: 0 <= i < |a| ==> a[i].id == b[i].id
    ensures Find(a, id) == Find(b, id)
  {
  }

  // ---- NITZ ----

  function NitzOf(wire: seq<Sent>): (r: seq<nat>) {
    if wire == [] then []
    else
      var l := |wire| - 1;
      NitzOf(wire[..l]) + if wire[l].packet.Nitz? then [wire[l].packet.number] else []
  }

  lemma {:induction false} NitzOfQuiet(wire: seq<Sent>, more: seq<Sent>)
    requires wire <= more && forall k :: |wire| <= k < |more| ==> !more[k].packet.Nitz?
    ensures NitzOf(more) == NitzOf(wire)
  {
    if wire != more { NitzOfQuiet(wire, more[..|more| - 1]); }
  }

  lemma NitzOfOne(wire: seq<Sent>, last: Sent)
    requires last.packet.Nitz?
    ensures NitzOf(wire + [last]) == NitzOf(wire) + [last.packet.number]
  {
    assert (wire + [last])[..|wire|] == wire;
  }

  /** NITZ messages are written in the order received, each at most once. The latest one was either the
      last written or, with no client, is the one kept for the next. */
  ghost predicate NitzInv(s: State) {
    var n := NitzOf(s.wire);
    && (forall i, j :: 0 <= i < j < |n| ==> n[i] < n[j])
    && (forall i :: 0 <= i < |n| ==> n[i] < s.nextNitz)
    && (s.lastNitz.Some? ==>
          s.fdCommand < 0 && s.nextNitz > 0 && s.lastNitz.value == Nitz(s.nextNitz - 1)
          && (n == [] || n[|n| - 1] < s.nextNitz - 1))
    && (s.lastNitz.None? && s.nextNitz > 0 ==> n != [] && n[|n| - 1] == s.nextNitz - 1)
  }

  lemma CalmKeepsNitz(s: State, t: State)
    requires t.lastNitz == s.lastNitz && t.nextNitz == s.nextNitz && t.fdCommand == s.fdCommand && s.wire <= t.wire
    requires forall k :: |s.wire| <= k < |t.wire| ==> !t.wire[k].packet.Nitz?
    ensures NitzOf(t.wire) == NitzOf(s.wire) && (NitzInv(s) ==> NitzInv(t))
  {
    NitzOfQuiet(s.wire, t.wire);
  }

  lemma NotifySends(s: State, code: int, p: Packet, now: int)
    ensures var t := Notify(s, code, p, now);
            t.wire == Send(s, p).wire && t.lastNitz == s.lastNitz && t.nextNitz == s.nextNitz && t.fdCommand == s.fdCommand
  {
  }

  lemma ReceivedKeeps(s: State, now: int)
    requires NitzInv(s)
    ensures NitzInv(Unsolicited(s, NITZ_TIME_RECEIVED, true, On, now))
  {
    hide NitzOf, ProcessRadioState, Notify;
    NotifySends(s.(nextNitz := s.nextNitz + 1), NITZ_TIME_RECEIVED, Nitz(s.nextNitz), now);
    NitzOfOne(s.wire, Sent(s.conn, Nitz(s.nextNitz)));
  }

  lemma UnsolicitedKeepsNitz(s: State, code: int, ok: bool, radio: Radio, now: int)
    requires NitzInv(s)
    ensures NitzInv(Unsolicited(s, code, ok, radio, now))
  {
    hide NitzInv, ProcessRadioState, Notify;
    if code == NITZ_TIME_RECEIVED && ok {
      ReceivedKeeps(s, now);
      assert Unsolicited(s, code, ok, radio, now) == Unsolicited(s, NITZ_TIME_RECEIVED, true, On, now);
    } else {
      UnsolicitedKeeps(s, code, ok, radio, now);
      if code == NITZ_TIME_RECEIVED { assert Calm(s, s.(held := false)); }
      CalmKeepsNitz(s, Unsolicited(s, code, ok, radio, now));
    }
  }

  lemma ReplayKeeps(s: State)
    requires s.fdCommand >= 0 && NitzInv(s.(fdCommand := -1))
    ensures s.lastNitz.None? ==> NitzInv(s)
    ensures s.lastNitz.Some? ==>
              var t := Send(s, s.lastNitz.value).(lastNitz := None);
              NitzInv(t) && NitzOf(t.wire) == NitzOf(s.wire) + [s.nextNitz - 1]
  {
    if s.lastNitz.Some? { NitzOfOne(s.wire, Sent(s.conn, s.lastNitz.value)); }
    hide NitzOf;
  }

  /** A client that connects is sent exactly the latest message that was missed, if one was, and
      after everything else. */
  lemma ConnectReplays(s: State, radio: Radio, now: int)
    requires s.fdCommand >= 0
    requires NitzInv(s.(fdCommand := -1))
    ensures var t := Greet(s, radio, now);
            && NitzInv(t) && t.lastNitz.None?
            && NitzOf(t.wire) == NitzOf(s.wire) + (if s.lastNitz.Some? then [s.nextNitz - 1] else [])
            && (s.lastNitz.Some? ==> t.wire != [] && t.wire[|t.wire| - 1] == Sent(s.conn, s.lastNitz.value))
  {
    hide Unsolicited;
    var a := Unsolicited(s, RIL_CONNECTED, true, radio, now);
    var b := Unsolicited(a, RADIO_STATE_CHANGED, true, radio, now);
    UnsolicitedKeeps(s, RIL_CONNECTED, true, radio, now);
    UnsolicitedKeeps(a, RADIO_STATE_CHANGED, true, radio, now);
    CalmTrans(s, a, b);
    CalmKeepsNitz(s, b);
    CalmKeepsNitz(s.(fdCommand := -1), b.(fdCommand := -1));
    hide Calm, NitzOf, NitzInv;
    assert b.fdCommand == s.fdCommand && b.conn == s.conn && b.lastNitz == s.lastNitz && b.nextNitz == s.nextNitz by {
      assert Quiet(s, b);
    }
    ReplayKeeps(b);
  }

  // ---- watched descriptors ----

  /** What is in the second slot of the watch table: the command event, the listen event, or for a moment
      neither. */
  function Second(s: State): Option<Watch<Event>> {
    if s.fdCommand >= 0 then Some(Watch(CommandSocket, s.fdCommand, true))
    else if s.accepting then None
    else Some(Watch(ListenSocket, s.boot.listenFd, false))
  }

  /** The watch table is fully known. */
  ghost predicate WatchInv(s: State) {
    && GoodBoot(s.boot)
    && (s.fdCommand >= 0 ==> !s.accepting && s.fdCommand !in {s.boot.wakeupFd, s.boot.listenFd, s.boot.debugFd})
    && s.fds.table == Three(Watch(WakeupPipe, s.boot.wakeupFd, true), Second(s), Watch(DebugSocket, s.boot.debugFd, true))
    && FdsInv(s.fds)
  }

  lemma WatchMeans(s: State)
    requires WatchInv(s)
    ensures Watched(s.fds.table, ListenSocket) <==> s.fdCommand < 0 && !s.accepting
    ensures Watched(s.fds.table, CommandSocket) <==> s.fdCommand >= 0
    ensures FreeSlot(s.fds.table) == if s.accepting then 1 else 3
    ensures s.accepting ==> s.fdCommand < 0
  {
    hide FdsInv;
    var t := s.fds.table;
    assert t[0].Some? && (t[1].None? <==> s.accepting) && t[2].Some? && t[3].None?;
    assert t[1].Some? ==> t[1].value.ev == if s.fdCommand >= 0 then CommandSocket else ListenSocket;
  }

  /** The three watches, with `second` in the second slot. */
  function Three(first: Watch<Event>, second: Option<Watch<Event>>, third: Watch<Event>): Table<Event> {
    [Some(first), second, Some(third), None, None, None, None, None]
  }

  lemma Left(fds: Fds<Event>, first: Watch<Event>, out: Watch<Event>, third: Watch<Event>)
    requires fds.table == Three(first, Some(out), third) && FdsInv(fds)
    ensures var t := DeleteWatch(fds, out.ev); t.table == Three(first, None, third) && FdsInv(t)
  {
    assert fds.table[0].value.ev != out.ev by { assert fds.table[1].Some?; }
    hide FdsInv;
    assert SlotOf(fds.table, out.ev) == 1;
    hide SlotOf;
    RemoveWatchKeeps(fds, 1);
    hide RemoveWatch;
  }

  lemma AddedNext(fds: Fds<Event>, i: nat, w: Watch<Event>)
    requires FdsInv(fds) && i < MAX_FD_EVENTS && w.fd >= 0 && fds.table[i].None?
    requires forall k :: 0 <= k < i ==> fds.table[k].Some?
    requires forall k :: 0 <= k < MAX_FD_EVENTS && fds.table[k].Some? ==>
               fds.table[k].value.fd != w.fd && fds.table[k].value.ev != w.ev
    ensures AddWatch(fds, w).table == fds.table[i := Some(w)] && FdsInv(AddWatch(fds, w))
  {
    assert FreeSlot(fds.table) == i;
    hide FreeSlot;
    assert !WatchedFd(fds.table, w.fd) && !Watched(fds.table, w.ev);
    AddWatchKeeps(fds, w);
  }

  /** One event leaves the second slot and another takes it. */
  lemma Swapped(fds: Fds<Event>, first: Watch<Event>, out: Watch<Event>, third: Watch<Event>, again: Watch<Event>)
    requires fds.table == Three(first, Some(out), third) && FdsInv(fds)
    requires again.fd >= 0 && again.fd !in {first.fd, third.fd} && again.ev !in {first.ev, third.ev}
    ensures var t := AddWatch(DeleteWatch(fds, out.ev), again);
            t.table == Three(first, Some(again), third) && FdsInv(t)
  {
    hide FdsInv, AddWatch, DeleteWatch;
    Left(fds, first, out, third);
    var d := DeleteWatch(fds, out.ev);
    assert |d.table| == MAX_FD_EVENTS;
    AddedNext(d, 1, again);
  }

  // ---- steps ----

  ghost predicate Inv(s: State) { WatchInv(s) && RequestsInv(s) && WakeInv(s) && NitzInv(s) }

  lemma RequestsOnlyKeeps(s: State, t: State)
    requires RequestsOnly(s, t) && WatchInv(s) && WakeInv(s) && NitzInv(s)
    ensures WatchInv(t) && WakeInv(t) && NitzInv(t)
  {
    CalmKeepsNitz(s, t);
    SameWake(s, t);
    assert WatchInv(t) by { hide FdsInv; }
    hide WakeInv, NitzInv, NitzOf, WatchInv;
  }

  lemma SameWake(s: State, t: State)
    requires WakeInv(s) && t.timers == s.timers && t.nextTimer == s.nextTimer && t.held == s.held
             && t.lastWake == s.lastWake && t.lastWakeAt == s.lastWakeAt
    ensures WakeInv(t)
  {
  }

  /** The decoded value, if there is one, is stored for later comparison. */
  ghost predicate Stores(s: State, t: State) {
    t == s.(voiceTech := t.voiceTech, subscription := t.subscription)
  }

  lemma DecodedKeeps(s: State, token: int, code: int, radio: Radio, decoded: bool, t: State)
    requires RequestsInv(s) && s.fdCommand >= 0
    requires Stores(DispatchDecoded(Enqueue(s, token, code, false), s.nextId, radio, decoded), t)
    ensures RequestsInv(t) && RequestsOnly(s, t)
  {
    var q := Enqueue(s, token, code, false);
    var u := DispatchDecoded(q, s.nextId, radio, decoded);
    hide Enqueue, RequestsInv, DispatchDecoded, RequestsOnly;
    EnqueueOnly(s, token, code, false);
    EnqueueKeeps(s, token, code, false);
    DispatchKeeps(q, s.nextId, radio, decoded);
    RequestsOnlyTrans(s, q, u);
    StoresOnly(s, u, t);
    QuietKeeps(u, t);
  }

  lemma StoresOnly(s: State, u: State, t: State)
    requires RequestsOnly(s, u) && Stores(u, t)
    ensures RequestsOnly(s, t) && Quiet(u, t)
  {
  }

  lemma CommandKeeps(s: State, code: int, token: int, radio: Radio)
    requires RequestsInv(s) && s.fdCommand >= 0
    ensures var t := Command(s, code, token, radio); RequestsInv(t) && RequestsOnly(s, t)
  {
    var t := Command(s, code, token, radio);
    if code < 1 || code >= NUM_COMMANDS {
      QuietKeeps(s, t);
      hide RequestsInv;
    } else if code == VOICE_RADIO_TECH {
      hide Enqueue, RequestsInv, DispatchDecoded, RequestsOnly;
      DecodedKeeps(s, token, code, radio, DecodeVoiceTech(radio).Some?, t);
    } else if code == CDMA_GET_SUBSCRIPTION_SOURCE {
      hide Enqueue, RequestsInv, DispatchDecoded, RequestsOnly;
      DecodedKeeps(s, token, code, radio, DecodeSubscription(radio).Some?, t);
    } else {
      EnqueueKeeps(s, token, code, false);
      hide RequestsInv;
    }
  }

  lemma ReceivedKeepsRequests(s: State, block: seq<byte>, radio: Radio)
    requires RequestsInv(s) && s.fdCommand >= 0
    ensures var t := Received(s, block, radio); RequestsInv(t) && RequestsOnly(s, t)
  {
    assert RequestsOnly(s, s);
    hide Command, RequestsInv, RequestsOnly, Header;
    if Header(block).Some? { CommandKeeps(s, Header(block).value.0, Header(block).value.1, radio); }
  }

  lemma DispatchKeeps(s: State, id: nat, radio: Radio, decoded: bool)
    requires RequestsInv(s)
    ensures var t := DispatchDecoded(s, id, radio, decoded); RequestsInv(t) && RequestsOnly(s, t)
  {
    assert RequestsOnly(s, s);
    CompleteKeeps(s, id, RadioNotAvailable);
    var t := if radio.Off? || radio.Unavailable? then Complete(s, id, RadioNotAvailable) else s;
    CompleteKeeps(t, id, if decoded then Success else GenericFailure);
    RequestsOnlyTrans(s, t, Complete(t, id, if decoded then Success else GenericFailure));
    hide Complete, RequestsInv, RequestsOnly;
  }

  /** The loop has taken the listen event from the table and calls `listenCallback`. */
  ghost predicate Listening(s: State) {
    WatchInv(s) && s.accepting
  }

  /** `again` takes the free second slot. */
  lemma SecondTaken(s: State, again: Watch<Event>)
    requires Listening(s)
    requires again.fd >= 0 && again.fd !in {s.boot.wakeupFd, s.boot.debugFd} && again.ev in {ListenSocket, CommandSocket}
    ensures var t := AddWatch(s.fds, again);
            && FdsInv(t)
            && t.table == Three(Watch(WakeupPipe, s.boot.wakeupFd, true), Some(again), Watch(DebugSocket, s.boot.debugFd, true))
  {
    hide FdsInv, AddWatch;
    assert |s.fds.table| == MAX_FD_EVENTS;
    AddedNext(s.fds, 1, again);
  }

  lemma AgainKeeps(s: State)
    requires Listening(s)
    ensures WatchInv(s.(fdCommand := -1, accepting := false, fds := AddWatch(s.fds, Watch(ListenSocket, s.boot.listenFd, false))))
  {
    SecondTaken(s, Watch(ListenSocket, s.boot.listenFd, false));
    hide FdsInv, AddWatch;
  }

  /** With the listen event gone nothing but its slot changes. */
  lemma WaitsKeeps(s: State)
    requires Inv(s) && s.fdCommand < 0 && !s.accepting
    ensures Inv(ListenReady(s))
  {
    hide FdsInv, DeleteWatch, NitzOf, Find;
    Left(s.fds, Watch(WakeupPipe, s.boot.wakeupFd, true), Watch(ListenSocket, s.boot.listenFd, false),
         Watch(DebugSocket, s.boot.debugFd, true));
    assert WatchInv(ListenReady(s));
    hide WatchInv, DeleteWatch;
  }

  /** The connection as `onNewCommandConnect` finds it. */
  function Opened(s: State, fd: int): State {
    s.(fdCommand := fd, accepting := false, conn := s.conn + 1, fds := AddWatch(s.fds, Watch(CommandSocket, fd, true)))
  }

  lemma OpenedKeeps(s: State, fd: int)
    requires Listening(s) && RequestsInv(s)
    requires fd >= 0 && fd !in {s.boot.wakeupFd, s.boot.listenFd, s.boot.debugFd}
    ensures WatchInv(Opened(s, fd)) && RequestsInv(Opened(s, fd))
  {
    hide FdsInv, AddWatch, RequestsInv;
    SecondTaken(s, Watch(CommandSocket, fd, true));
    OpenedRequests(s, fd);
  }

  lemma OpenedRequests(s: State, fd: int)
    requires RequestsInv(s) && s.fdCommand < 0
    ensures RequestsInv(Opened(s, fd))
  {
    hide Find, AddWatch;
  }

  lemma QuietKeepsWatches(s: State, t: State)
    requires Quiet(s, t) && WatchInv(s)
    ensures WatchInv(t)
  {
    hide FdsInv;
  }

  lemma OpenedWaits(s: State, fd: int)
    requires WakeInv(s) && NitzInv(s) && s.fdCommand < 0
    ensures WakeInv(Opened(s, fd)) && NitzInv(Opened(s, fd).(fdCommand := -1))
  {
    hide NitzOf, AddWatch;
  }

  lemma PhoneKeeps(s: State, fd: int, radio: Radio, now: int)
    requires Inv(s) && s.accepting
    requires fd >= 0 && fd !in {s.boot.wakeupFd, s.boot.listenFd, s.boot.debugFd}
    ensures Inv(Greet(Opened(s, fd), radio, now))
    ensures Quiet(Opened(s, fd), Greet(Opened(s, fd), radio, now))
  {
    var t := Opened(s, fd);
    hide Greet, RequestsInv, Quiet, WatchInv, WakeInv, NitzInv, AddWatch, DeleteWatch;
    WatchMeans(s);
    assert Listening(s);
    OpenedKeeps(s, fd);
    OpenedWaits(s, fd);
    ConnectReplays(t, radio, now);
    StoredIsNitz(s);
    GreetKeeps(t, radio, now);
    QuietKeeps(t, Greet(t, radio, now));
    QuietKeepsWatches(t, Greet(t, radio, now));
  }

  lemma StoredIsNitz(s: State)
    requires NitzInv(s)
    ensures s.lastNitz.Some? ==> s.lastNitz.value.Nitz?
  {
  }

  lemma ListenKeeps(s: State, accepted: Accepted, radio: Radio, now: int)
    requires Inv(s) && Enabled(s, ClientConnects(accepted, radio, now))
    ensures Inv(Listen(s, accepted, radio, now))
    ensures s.fdCommand < 0
  {
    hide WatchInv, RequestsInv, WakeInv, NitzInv, CancelAll, AddWatch, Greet, Watched;
    WatchMeans(s);
    var fds := AddWatch(s.fds, Watch(ListenSocket, s.boot.listenFd, false));
    match accepted
    case Failed =>
      AgainKeeps(s);
      FdsOnlyKeeps(s, fds);
    case NotPhone =>
      AgainKeeps(s);
      ClosedKeeps(s, fds);
    case Phone(fd) =>
      PhoneKeeps(s, fd, radio, now);
  }

  lemma FdsOnlyKeeps(s: State, fds: Fds<Event>)
    requires RequestsInv(s) && WakeInv(s) && NitzInv(s) && s.fdCommand < 0
    ensures var t := s.(fdCommand := -1, accepting := false, fds := fds); RequestsInv(t) && WakeInv(t) && NitzInv(t)
  {
    hide NitzOf, Find;
  }

  /** Whatever was watched before: with the client gone, every request is cancelled. */
  lemma ClosedKeeps(s: State, fds: Fds<Event>)
    requires RequestsInv(s) && WakeInv(s) && NitzInv(s)
    ensures var t := s.(fdCommand := -1, accepting := false, fds := fds, pending := CancelAll(s.pending));
            RequestsInv(t) && WakeInv(t) && NitzInv(t)
    ensures WatchInv(s.(fdCommand := -1, accepting := false, fds := fds)) ==>
              WatchInv(s.(fdCommand := -1, accepting := false, fds := fds, pending := CancelAll(s.pending)))
  {
    assert WakeInv(s.(fdCommand := -1, accepting := false, fds := fds, pending := CancelAll(s.pending)));
    assert NitzInv(s.(fdCommand := -1, accepting := false, fds := fds, pending := CancelAll(s.pending))) by { hide NitzOf; }
    hide NitzInv, WakeInv, FdsInv;
    CancelKeeps(s.(fdCommand := -1, accepting := false, fds := fds));
  }

  lemma DisconnectKeeps(s: State)
    requires Inv(s) && s.fdCommand >= 0
    ensures Inv(Disconnect(s))
  {
    var t := Disconnect(s);
    var first, third := Watch(WakeupPipe, s.boot.wakeupFd, true), Watch(DebugSocket, s.boot.debugFd, true);
    Swapped(s.fds, first, Watch(CommandSocket, s.fdCommand, true), third, Watch(ListenSocket, s.boot.listenFd, false));
    hide RequestsInv, WakeInv, NitzInv, FdsInv, AddWatch, DeleteWatch, CancelAll;
    assert WatchInv(t) && t == t.(accepting := false);
    hide WatchInv;
    ClosedKeeps(s, t.fds);
  }

  lemma TimerKeeps(s: State, id: nat)
    requires WakeInv(s) && id in s.timers
    ensures WakeInv(TimerFires(s, id))
  {
  }

  lemma UserTimerKeeps(s: State, deadline: int)
    requires WakeInv(s)
    ensures WakeInv(s.(timers := s.timers[s.nextTimer := User(deadline)], nextTimer := s.nextTimer + 1))
  {
  }

  /** `t` differs from `s` only in its timers and the lock. */
  ghost predicate TimersOnly(s: State, t: State) {
    t == s.(timers := t.timers, nextTimer := t.nextTimer, held := t.held, lastWake := t.lastWake)
  }

  lemma TimersOnlyKeeps(s: State, t: State)
    requires WatchInv(s) && RequestsInv(s) && NitzInv(s) && TimersOnly(s, t)
    ensures WatchInv(t) && RequestsInv(t) && NitzInv(t)
  {
    hide FdsInv, NitzOf, Find;
  }

  lemma RequestsStep(s: State, t: State)
    requires Inv(s) && RequestsInv(t) && RequestsOnly(s, t)
    ensures Inv(t)
  {
    hide WatchInv, RequestsInv, WakeInv, NitzInv, RequestsOnly;
    RequestsOnlyKeeps(s, t);
  }

  lemma TimersStep(s: State, t: State)
    requires Inv(s) && WakeInv(t) && TimersOnly(s, t)
    ensures Inv(t)
  {
    hide WatchInv, RequestsInv, WakeInv, NitzInv, TimersOnly;
    TimersOnlyKeeps(s, t);
  }

  lemma NotifiesStep(s: State, code: int, ok: bool, radio: Radio, now: int)
    requires Inv(s)
    ensures Inv(Unsolicited(s, code, ok, radio, now))
  {
    hide WatchInv, RequestsInv, WakeInv, NitzInv, Unsolicited, Quiet, Calm;
    var t := Unsolicited(s, code, ok, radio, now);
    UnsolicitedKeeps(s, code, ok, radio, now);
    QuietKeeps(s, t);
    QuietKeepsWatches(s, t);
    UnsolicitedKeepsNitz(s, code, ok, radio, now);
  }

  lemma InvMeans(s: State)
    requires Inv(s)
    ensures WatchInv(s) && RequestsInv(s) && WakeInv(s) && NitzInv(s)
    ensures Watched(s.fds.table, ListenSocket) <==> s.fdCommand < 0 && !s.accepting
    ensures Watched(s.fds.table, CommandSocket) <==> s.fdCommand >= 0
  {
    hide RequestsInv, WakeInv, NitzInv, Watched;
    WatchMeans(s);
  }

  lemma StepKeeps(s: State, step: Step)
    requires Inv(s) && Enabled(s, step)
    ensures Inv(Next(s, step))
  {
    var t := Next(s, step);
    hide Inv, WatchInv, RequestsInv, WakeInv, NitzInv, ListenReady, Listen, Received, Disconnect, Complete, Unsolicited,
      Enqueue, Watched, RequestsOnly;
    InvMeans(s);
    match step
    case ClientWaits => WaitsKeeps(s);
    case ClientConnects(accepted, radio, now) => ListenKeeps(s, accepted, radio, now);
    case ClientCommand(block, radio) =>
      ReceivedKeepsRequests(s, block, radio);
      RequestsStep(s, t);
    case ClientGone => DisconnectKeeps(s);
    case LibraryCompletes(id, error) =>
      CompleteKeeps(s, id, error);
      RequestsStep(s, t);
    case LibraryNotifies(code, ok, radio, now) => NotifiesStep(s, code, ok, radio, now);
    case LocalRequest(code) =>
      EnqueueKeeps(s, 0xffff_ffff, code, true);
      EnqueueOnly(s, 0xffff_ffff, code, true);
      RequestsStep(s, t);
    case UserTimer(deadline) =>
      UserTimerKeeps(s, deadline);
      TimersStep(s, t);
    case TimerGoesOff(id, now) =>
      TimerKeeps(s, id);
      TimersStep(s, t);
  }

  lemma EnqueueOnly(s: State, token: int, code: int, local: bool)
    requires RequestsInv(s)
    ensures RequestsOnly(s, Enqueue(s, token, code, local))
  {
  }

  lemma NoneWatchedKeeps()
    ensures FdsInv(NoneWatched()) && NoneWatched().table == [None, None, None, None, None, None, None, None]
  {
  }

  lemma StartWatches(b: Boot)
    requires GoodBoot(b)
    ensures WatchInv(Start(b))
  {
    hide FdsInv, AddWatch, NoneWatched;
    var w1, w2, w3 := Watch(WakeupPipe, b.wakeupFd, true), Watch(ListenSocket, b.listenFd, false), Watch(DebugSocket, b.debugFd, true);
    NoneWatchedKeeps();
    AddedNext(NoneWatched(), 0, w1);
    AddedNext(AddWatch(NoneWatched(), w1), 1, w2);
    AddedNext(AddWatch(AddWatch(NoneWatched(), w1), w2), 2, w3);
  }

  lemma StartKeeps(b: Boot)
    requires GoodBoot(b)
    ensures Inv(Start(b))
  {
    StartWatches(b);
    hide WatchInv, AddWatch;
  }

  // ---- theorems over every run ----

  lemma RunStep(b: Boot, run: seq<State>, steps: seq<Step>, i: nat)
    requires IsRun(b, run, steps) && i < |steps|
    ensures |run| == |steps| + 1 && Enabled(run[i], steps[i]) && run[i + 1] == Next(run[i], steps[i])
  {
    hide Enabled, Next;
  }

  lemma RunLength(b: Boot, run: seq<State>, steps: seq<Step>)
    requires IsRun(b, run, steps)
    ensures |run| == |steps| + 1 && GoodBoot(b) && run[0] == Start(b)
  {
    hide Start, Enabled, Next;
  }

  /** Registration starts a run, and every enabled step continues one. */
  lemma RunsContinue(b: Boot, run: seq<State>, steps: seq<Step>, step: Step)
    requires GoodBoot(b)
    ensures IsRun(b, [Start(b)], [])
    ensures IsRun(b, run, steps) && Enabled(run[|steps|], step) ==> IsRun(b, run + [Next(run[|steps|], step)], steps + [step])
  {
    hide Enabled, Next, Start;
  }

  lemma {:induction false} EveryState(b: Boot, run: seq<State>, steps: seq<Step>, i: nat)
    requires IsRun(b, run, steps) && i < |run|
    ensures Inv(run[i])
  {
    hide Inv, Enabled, Next, Start, IsRun;
    RunLength(b, run, steps);
    if i == 0 {
      StartKeeps(b);
    } else {
      EveryState(b, run, steps, i - 1);
      RunStep(b, run, steps, i - 1);
      StepKeeps(run[i - 1], steps[i - 1]);
    }
  }

  /** Nothing is taken back: a connection, a request number or a packet is never used again. */
  ghost predicate Grows(s: State, t: State) {
    && s.conn <= t.conn && s.nextId <= t.nextId && s.wire <= t.wire
    && forall id :: id in s.origin ==> id in t.origin && t.origin[id] == s.origin[id]
  }

  /** And what is written goes to the connection that is open at the end. */
  ghost predicate Extends(s: State, t: State) {
    && Grows(s, t) && (t.fdCommand < 0 ==> t.wire == s.wire)
    && forall k :: |s.wire| <= k < |t.wire| ==> t.wire[k].conn == t.conn
  }

  lemma QuietExtends(s: State, t: State)
    requires Quiet(s, t)
    ensures Extends(s, t)
  {
  }

  lemma RequestsOnlyExtends(s: State, t: State)
    requires RequestsOnly(s, t)
    ensures Extends(s, t)
  {
  }

  lemma ListenExtends(s: State, accepted: Accepted, radio: Radio, now: int)
    requires Inv(s) && Enabled(s, ClientConnects(accepted, radio, now))
    ensures Extends(s, Listen(s, accepted, radio, now))
  {
    hide WatchInv, RequestsInv, WakeInv, NitzInv, Watched, CancelAll, Greet, AddWatch, DeleteWatch;
    WatchMeans(s);
    if accepted.Phone? {
      assert accepted.fd >= 0 && accepted.fd !in {s.boot.wakeupFd, s.boot.listenFd, s.boot.debugFd};
      PhoneKeeps(s, accepted.fd, radio, now);
      QuietExtends(Opened(s, accepted.fd), Greet(Opened(s, accepted.fd), radio, now));
      hide Quiet;
    }
  }

  lemma StepExtends(s: State, step: Step)
    requires Inv(s) && Enabled(s, step)
    ensures Extends(s, Next(s, step))
  {
    var t := Next(s, step);
    hide WatchInv, RequestsInv, WakeInv, NitzInv, Listen, Received, Complete, Unsolicited, Watched, CancelAll, AddWatch, DeleteWatch,
      Quiet, RequestsOnly, Extends, Enqueue;
    WatchMeans(s);
    match step
    case ClientConnects(accepted, radio, now) => ListenExtends(s, accepted, radio, now);
    case ClientCommand(block, radio) =>
      ReceivedKeepsRequests(s, block, radio);
      RequestsOnlyExtends(s, t);
    case LibraryCompletes(id, error) =>
      CompleteKeeps(s, id, error);
      RequestsOnlyExtends(s, t);
    case LibraryNotifies(code, ok, radio, now) =>
      UnsolicitedKeeps(s, code, ok, radio, now);
      QuietExtends(s, t);
    case LocalRequest(code) => EnqueueExtends(s, 0xffff_ffff, code, true);
    case _ => NothingSent(s, t);
  }

  lemma NothingSent(s: State, t: State)
    requires t.conn == s.conn && t.nextId == s.nextId && t.wire == s.wire && t.origin == s.origin
    ensures Extends(s, t)
  {
  }

  lemma EnqueueExtends(s: State, token: int, code: int, local: bool)
    requires RequestsInv(s)
    ensures Extends(s, Enqueue(s, token, code, local))
  {
  }

  /** A response is written only on the connection its request was read on, and only while that
      connection is still open; it carries the request's token. Unsolicited and replayed packets too
      go only to the open connection. */
  lemma NoCrossConnection(b: Boot, run: seq<State>, steps: seq<Step>, i: nat, k: nat)
    requires IsRun(b, run, steps) && i < |steps| && |run[i].wire| <= k < |run[i + 1].wire|
    ensures var t, sent := run[i + 1], run[i + 1].wire[k];
            && t.fdCommand >= 0 && sent.conn == t.conn
            && (sent.packet.Response? ==>
                  && sent.packet.request in t.origin
                  && var r := t.origin[sent.packet.request];
                     !r.local && r.conn == t.conn && r.token == sent.packet.token)
  {
    hide Next, Enabled, WatchInv, WakeInv, NitzInv, Find, IsRun, Start;
    RunLength(b, run, steps);
    EveryState(b, run, steps, i);
    EveryState(b, run, steps, i + 1);
    RunStep(b, run, steps, i);
    StepExtends(run[i], steps[i]);
  }

  lemma GrowsTrans(s: State, t: State, u: State)
    requires Grows(s, t)
    ensures Grows(s, s) && (Grows(t, u) ==> Grows(s, u))
  {
  }

  lemma {:induction false} RunGrows(b: Boot, run: seq<State>, steps: seq<Step>, i: nat, j: nat)
    requires IsRun(b, run, steps) && i <= j < |run|
    ensures Grows(run[i], run[j])
  {
    hide Inv, Next, Enabled, IsRun, Start;
    if i < j {
      RunLength(b, run, steps);
      RunGrows(b, run, steps, i, j - 1);
      EveryState(b, run, steps, j - 1);
      RunStep(b, run, steps, j - 1);
      StepExtends(run[j - 1], steps[j - 1]);
      hide Grows;
      GrowsTrans(run[i], run[j - 1], run[j]);
    }
  }

  /** Each received request gets at most one response in a run, and none while it is pending; a local
      request gets none. */
  lemma AtMostOneResponse(b: Boot, run: seq<State>, steps: seq<Step>, i: nat, id: nat, k: nat, l: nat)
    requires IsRun(b, run, steps) && i < |run|
    requires k < |run[i].wire| && l < |run[i].wire| && Answers(run[i].wire[k], id) && Answers(run[i].wire[l], id)
    ensures k == l && id in run[i].origin && !run[i].origin[id].local && !Pending(run[i], id)
  {
    hide IsRun, WatchInv, WakeInv, NitzInv, PendingInv, CurrentInv, Find;
    EveryState(b, run, steps, i);
  }

  // ---- cancelled requests ----

  /** Cancelled, if still pending, and not answered: this is final. */
  ghost predicate Silenced(s: State, id: nat) {
    && id < s.nextId
    && (forall k :: 0 <= k < |s.wire| ==> !Answers(s.wire[k], id))
    && (forall i :: 0 <= i < |s.pending| && s.pending[i].id == id ==> s.pending[i].cancelled)
  }

  lemma QuietSilences(s: State, t: State, id: nat)
    requires Quiet(s, t) && Silenced(s, id)
    ensures Silenced(t, id)
  {
    assert forall k :: 0 <= k < |s.wire| ==> t.wire[k] == s.wire[k];
  }

  lemma EnqueueSilences(s: State, token: int, code: int, local: bool, id: nat)
    requires Silenced(s, id)
    ensures Silenced(Enqueue(s, token, code, local), id)
  {
  }

  lemma DequeueKeepsOthers(pending: seq<Request>, id: nat, k: nat)
    requires k < |Dequeue(pending, id)|
    ensures Dequeue(pending, id)[k] in pending
  {
    hide Find;
  }

  lemma CompleteSilences(s: State, done: nat, e: Errno, id: nat)
    requires Silenced(s, id)
    ensures Silenced(Complete(s, done, e), id)
  {
    hide Dequeue, Find;
    var t := Complete(s, done, e);
    forall k | 0 <= k < |t.pending| ensures t.pending[k] in s.pending {
      if t.pending != s.pending { DequeueKeepsOthers(s.pending, done, k); }
    }
  }

  lemma CommandSilences(s: State, code: int, token: int, radio: Radio, id: nat)
    requires Silenced(s, id)
    ensures Silenced(Command(s, code, token, radio), id)
  {
    hide Silenced, Enqueue, Complete;
    var t, q := Command(s, code, token, radio), Enqueue(s, token, code, false);
    if code < 1 || code >= NUM_COMMANDS {
      QuietSilences(s, t, id);
    } else {
      EnqueueSilences(s, token, code, false, id);
      if code == VOICE_RADIO_TECH {
        DispatchSilences(q, s.nextId, radio, DecodeVoiceTech(radio).Some?, id);
        QuietSilences(DispatchDecoded(q, s.nextId, radio, DecodeVoiceTech(radio).Some?), t, id);
      } else if code == CDMA_GET_SUBSCRIPTION_SOURCE {
        DispatchSilences(q, s.nextId, radio, DecodeSubscription(radio).Some?, id);
        QuietSilences(DispatchDecoded(q, s.nextId, radio, DecodeSubscription(radio).Some?), t, id);
      }
    }
  }

  lemma ReceivedSilences(s: State, block: seq<byte>, radio: Radio, id: nat)
    requires Silenced(s, id)
    ensures Silenced(Received(s, block, radio), id)
  {
    hide Command, Header, Silenced;
    if Header(block).Some? { CommandSilences(s, Header(block).value.0, Header(block).value.1, radio, id); }
  }

  lemma DispatchSilences(s: State, done: nat, radio: Radio, decoded: bool, id: nat)
    requires Silenced(s, id)
    ensures Silenced(DispatchDecoded(s, done, radio, decoded), id)
  {
    CompleteSilences(s, done, RadioNotAvailable, id);
    var t := if radio.Off? || radio.Unavailable? then Complete(s, done, RadioNotAvailable) else s;
    CompleteSilences(t, done, if decoded then Success else GenericFailure, id);
    hide Complete, Silenced;
  }

  lemma ListenSilences(s: State, accepted: Accepted, radio: Radio, now: int, id: nat)
    requires Inv(s) && Enabled(s, ClientConnects(accepted, radio, now)) && Silenced(s, id)
    ensures Silenced(Listen(s, accepted, radio, now), id)
  {
    hide WatchInv, RequestsInv, WakeInv, NitzInv, Watched, Greet, AddWatch, DeleteWatch;
    WatchMeans(s);
    if accepted.Phone? {
      assert accepted.fd >= 0 && accepted.fd !in {s.boot.wakeupFd, s.boot.listenFd, s.boot.debugFd};
      PhoneKeeps(s, accepted.fd, radio, now);
      assert Silenced(Opened(s, accepted.fd), id);
      QuietSilences(Opened(s, accepted.fd), Greet(Opened(s, accepted.fd), radio, now), id);
    }
  }

  lemma StepSilences(s: State, step: Step, id: nat)
    requires Inv(s) && Enabled(s, step) && Silenced(s, id)
    ensures Silenced(Next(s, step), id)
  {
    var t := Next(s, step);
    hide Inv, Listen, Received, Complete, Enqueue, Unsolicited, Watched, AddWatch, DeleteWatch, Quiet;
    match step
    case ClientConnects(accepted, radio, now) => ListenSilences(s, accepted, radio, now, id);
    case ClientCommand(block, radio) => ReceivedSilences(s, block, radio, id);
    case LibraryCompletes(done, error) => CompleteSilences(s, done, error, id);
    case LibraryNotifies(code, ok, radio, now) =>
      UnsolicitedKeeps(s, code, ok, radio, now);
      QuietSilences(s, t, id);
    case LocalRequest(code) => EnqueueSilences(s, 0xffff_ffff, code, true, id);
    case _ =>
  }

  lemma {:induction false} SilencedStays(b: Boot, run: seq<State>, steps: seq<Step>, i: nat, j: nat, id: nat)
    requires IsRun(b, run, steps) && i <= j < |run| && Silenced(run[i], id)
    ensures Silenced(run[j], id)
  {
    hide Inv, Next, Enabled, IsRun, Silenced, Start;
    if i < j {
      RunLength(b, run, steps);
      SilencedStays(b, run, steps, i, j - 1, id);
      EveryState(b, run, steps, j - 1);
      RunStep(b, run, steps, j - 1);
      StepSilences(run[j - 1], steps[j - 1], id);
    }
  }

  /** A request that was still pending when its connection closed is never answered, whatever the library
      does with its token and whoever connects later. */
  lemma CancelledStaysSilent(b: Boot, run: seq<State>, steps: seq<Step>, i: nat, j: nat, x: nat)
    requires IsRun(b, run, steps) && i <= j < |run|
    requires x < |run[i].pending| && run[i].pending[x].cancelled
    ensures Silenced(run[j], run[i].pending[x].id)
  {
    hide IsRun, Silenced, WatchInv, RequestsInv, WakeInv, NitzInv;
    EveryState(b, run, steps, i);
    PendingUnanswered(run[i], x);
    SilencedStays(b, run, steps, i, j, run[i].pending[x].id);
  }

  lemma PendingUnanswered(s: State, x: nat)
    requires RequestsInv(s) && x < |s.pending|
    ensures forall k :: 0 <= k < |s.wire| ==> !Answers(s.wire[k], s.pending[x].id)
    ensures s.pending[x].cancelled ==> Silenced(s, s.pending[x].id)
  {
    var id := s.pending[x].id;
    assert Pending(s, id);
    assert forall i :: 0 <= i < |s.pending| && i != x ==> s.pending[i].id != id;
    hide Find;
  }

  /** After a step that closes the connection every pending request is cancelled. */
  lemma ClosingCancels(b: Boot, run: seq<State>, steps: seq<Step>, i: nat)
    requires IsRun(b, run, steps) && i < |run| && run[i].fdCommand < 0
    ensures forall x :: 0 <= x < |run[i].pending| ==> run[i].pending[x].cancelled || run[i].pending[x].local
  {
    hide IsRun, WatchInv, WakeInv, NitzInv, PendingInv, WireInv;
    EveryState(b, run, steps, i);
  }

  // ---- completing ----

  /** Completing a pending request answers it on its own connection, or says nothing when it is local or
      cancelled; completing any other token does nothing at all. */
  lemma CompleteAnswers(s: State, x: nat, e: Errno)
    requires RequestsInv(s) && x < |s.pending|
    ensures var r := s.pending[x];
            var t := Complete(s, r.id, e);
            && t.pending == s.pending[..x] + s.pending[x + 1..]
            && t.wire == s.wire + (if r.local || r.cancelled then [] else [Sent(r.conn, Response(r.id, r.token, e))])
  {
    assert forall k :: 0 <= k < x ==> s.pending[k].id != s.pending[x].id;
    assert Find(s.pending, s.pending[x].id) == x;
    hide WireInv, PendingInv;
  }

  lemma CompleteTwice(s: State, id: nat, e: Errno, again: Errno)
    requires RequestsInv(s)
    ensures Complete(Complete(s, id, e), id, again) == Complete(s, id, e)
  {
    CompleteKeeps(s, id, e);
    hide RequestsInv, RequestsOnly;
  }

  /** With the radio off or unavailable, both completions of a decoded request together write exactly one
      response, saying that the radio is not available, and leave the other requests as they were. With
      an older library's state exactly one is written too; with the radio on none, and it stays pending. */
  lemma DecodedOnce(s: State, code: int, token: int, radio: Radio)
    requires RequestsInv(s) && s.fdCommand >= 0
    requires code in {VOICE_RADIO_TECH, CDMA_GET_SUBSCRIPTION_SOURCE}
    ensures var t := Command(s, code, token, radio);
            if radio.On? then
              t.wire == s.wire && t.pending == [Request(s.nextId, token, code, false, false, s.conn)] + s.pending
            else
              && t.pending == s.pending
              && t.wire == s.wire + [Sent(s.conn, Response(s.nextId, token,
                                     if radio.Off? || radio.Unavailable? then RadioNotAvailable else Success))]
  {
    var q := Enqueue(s, token, code, false);
    EnqueueKeeps(s, token, code, false);
    assert q.pending[0].id == s.nextId && q.pending[1..] == s.pending && q.pending[..0] == [];
    assert q.wire == s.wire && q.conn == s.conn;
    assert OldRadio(radio) ==> DecodeVoiceTech(radio).Some? && DecodeSubscription(radio).Some?;
    hide RequestsInv, Complete, Dequeue, Find;
    CompleteAnswers(q, 0, RadioNotAvailable);
    CompleteAnswers(q, 0, Success);
    CompleteTwice(q, s.nextId, RadioNotAvailable, GenericFailure);
    CompleteTwice(q, s.nextId, RadioNotAvailable, Success);
  }

  // ---- the wake lock ----

  /** The uncancelled wake timers. */
  function Uncancelled(s: State): set<nat> {
    set id | id in s.timers && s.timers[id].Wake? && !s.timers[id].cancelled
  }

  /** In every state the uncancelled wake timers are exactly the remembered one, or none; when the lock is
      held there is one; once no timer is left it is released. */
  lemma LockIsReleased(b: Boot, run: seq<State>, steps: seq<Step>, i: nat)
    requires IsRun(b, run, steps) && i < |run|
    ensures var s := run[i];
            && Uncancelled(s) == (if s.lastWake.Some? then {s.lastWake.value} else {})
            && (s.held ==> s.lastWake.Some?)
            && (s.timers == map[] ==> !s.held)
            && (s.lastWake.Some? ==> s.timers[s.lastWake.value].deadline == s.lastWakeAt + WAKE_TIMEOUT
                                     && !TimerFires(s, s.lastWake.value).held)
  {
    hide IsRun, WatchInv, RequestsInv, NitzInv;
    EveryState(b, run, steps, i);
  }

  /** A notification that takes the lock when its data is good. */
  predicate Wants(code: int) { UNSOL_BASE <= code < UNSOL_BASE + NUM_UNSOL && WakesPartially(code) }

  /** The time at which a step takes the lock, if it does: a good notification, or a client that connects
      and is greeted with two of them. */
  function TakenTime(step: Step): Option<int> {
    match step
    case LibraryNotifies(code, ok, _, now) => if Wants(code) && ok then Some(now) else None
    case ClientConnects(accepted, _, now) => if accepted.Phone? then Some(now) else None
    case _ => None
  }

  /** A notification that wants the lock but has bad data. */
  predicate Spoils(step: Step) { step.LibraryNotifies? && Wants(step.code) && !step.ok }

  /** The remembered wake timer goes off. */
  predicate Releases(s: State, step: Step) { step.TimerGoesOff? && s.lastWake == Some(step.id) }

  lemma TakenAt(s: State, code: int, radio: Radio, now: int)
    requires Wants(code)
    ensures var t := Unsolicited(s, code, true, radio, now);
            t.held && t.lastWakeAt == now && t.lastWake == Some(t.nextTimer - 1)
  {
    hide ProcessRadioState;
  }

  /** After a notification the lock is held exactly when the notification took it, or it was held and the
      notification did not want it. One that wants it but has bad data releases it, even while an
      earlier notification's second has not passed. */
  lemma HeldAfterNotification(s: State, code: int, ok: bool, radio: Radio, now: int)
    ensures Unsolicited(s, code, ok, radio, now).held <==> if Wants(code) then ok else s.held
  {
    hide ProcessRadioState;
  }

  /** What the lock and its second depend on. */
  ghost predicate SameLock(s: State, t: State) {
    t.held == s.held && t.lastWake == s.lastWake && t.lastWakeAt == s.lastWakeAt
  }

  lemma NotTaken(s: State, code: int, ok: bool, radio: Radio, now: int)
    requires !(Wants(code) && ok)
    ensures var t := Unsolicited(s, code, ok, radio, now); t.lastWake == s.lastWake && t.lastWakeAt == s.lastWakeAt
  {
    hide ProcessRadioState;
  }

  lemma CompleteTime(s: State, id: nat, e: Errno)
    ensures SameLock(s, Complete(s, id, e))
  {
    hide Find, Dequeue;
  }

  lemma DispatchTime(s: State, id: nat, radio: Radio, decoded: bool)
    ensures SameLock(s, DispatchDecoded(s, id, radio, decoded))
  {
    hide Complete;
    var t := if radio.Off? || radio.Unavailable? then Complete(s, id, RadioNotAvailable) else s;
    CompleteTime(s, id, RadioNotAvailable);
    CompleteTime(t, id, if decoded then Success else GenericFailure);
  }

  lemma AskTime(s: State, id: nat, radio: Radio)
    ensures SameLock(s, AskVoiceTech(s, id, radio)) && SameLock(s, AskSubscription(s, id, radio))
  {
    hide DispatchDecoded;
    DispatchTime(s, id, radio, DecodeVoiceTech(radio).Some?);
    DispatchTime(s, id, radio, DecodeSubscription(radio).Some?);
  }

  lemma ReceivedTime(s: State, block: seq<byte>, radio: Radio)
    ensures SameLock(s, Received(s, block, radio))
  {
    hide AskVoiceTech, AskSubscription, Header;
    if Header(block).Some? { AskTime(Enqueue(s, Header(block).value.1, Header(block).value.0, false), s.nextId, radio); }
  }

  lemma GreetTakes(s: State, radio: Radio, now: int)
    ensures var t := Greet(s, radio, now); t.held && t.lastWakeAt == now && t.lastWake.Some?
  {
    hide Unsolicited;
    TakenAt(s, RIL_CONNECTED, radio, now);
    TakenAt(Unsolicited(s, RIL_CONNECTED, true, radio, now), RADIO_STATE_CHANGED, radio, now);
  }

  lemma ListenLock(s: State, accepted: Accepted, radio: Radio, now: int)
    ensures var t := Listen(s, accepted, radio, now);
            if accepted.Phone? then t.held && t.lastWakeAt == now && t.lastWake.Some? else SameLock(s, t)
  {
    hide AddWatch, CancelAll, Greet;
    if accepted.Phone? { GreetTakes(Opened(s, accepted.fd), radio, now); }
  }

  /** What one step does to the lock: it is taken by the steps that take it, and released by a notification
      with bad data and by the remembered timer, and by nothing else. */
  lemma StepLock(s: State, step: Step)
    requires Inv(s) && Enabled(s, step)
    ensures var t := Next(s, step);
            && t.lastWakeAt == (if TakenTime(step).Some? then TakenTime(step).value else s.lastWakeAt)
            && (TakenTime(step).Some? ==> t.lastWake.Some?)
            && (TakenTime(step).None? ==> t.lastWake == if Releases(s, step) then None else s.lastWake)
            && (t.held <==> TakenTime(step).Some? || (s.held && !Spoils(step) && !Releases(s, step)))
  {
    hide WatchInv, RequestsInv, NitzInv, Listen, ListenReady, Received, Disconnect, Complete, Unsolicited, Watched, AddWatch, DeleteWatch;
    match step
    case ClientConnects(accepted, radio, now) => ListenLock(s, accepted, radio, now);
    case ClientCommand(block, radio) => ReceivedTime(s, block, radio);
    case LibraryCompletes(id, error) => CompleteTime(s, id, error);
    case LibraryNotifies(code, ok, radio, now) =>
      HeldAfterNotification(s, code, ok, radio, now);
      if Wants(code) && ok { TakenAt(s, code, radio, now); } else { NotTaken(s, code, ok, radio, now); }
    case ClientWaits => SocketsLock(s);
    case ClientGone => SocketsLock(s);
    case _ =>
  }

  lemma SocketsLock(s: State)
    ensures SameLock(s, ListenReady(s)) && SameLock(s, Disconnect(s))
  {
    hide AddWatch, DeleteWatch, CancelAll;
  }

  /** The clock value a step reads, if it does. */
  function ClockOf(step: Step): Option<int> {
    match step
    case ClientConnects(_, _, now) => Some(now)
    case LibraryNotifies(_, _, _, now) => Some(now)
    case TimerGoesOff(_, now) => Some(now)
    case _ => None
  }

  ghost predicate ClockGoesOn(steps: seq<Step>) {
    forall j, k :: 0 <= j < k < |steps| && ClockOf(steps[j]).Some? && ClockOf(steps[k]).Some? ==>
      ClockOf(steps[j]).value <= ClockOf(steps[k]).value
  }

  /** The remembered time is not before that of any step that has taken the lock. */
  lemma {:induction false} LatestTaken(b: Boot, run: seq<State>, steps: seq<Step>, i: nat, j: nat)
    requires IsRun(b, run, steps) && ClockGoesOn(steps) && j < i < |run| && TakenTime(steps[j]).Some?
    ensures run[i].lastWakeAt >= TakenTime(steps[j]).value
  {
    hide IsRun, Inv, Enabled, Next, Start;
    RunLength(b, run, steps);
    EveryState(b, run, steps, i - 1);
    RunStep(b, run, steps, i - 1);
    StepLock(run[i - 1], steps[i - 1]);
    if j < i - 1 {
      LatestTaken(b, run, steps, i - 1, j);
      assert TakenTime(steps[i - 1]).Some? ==> ClockOf(steps[j]).value <= ClockOf(steps[i - 1]).value;
    }
  }

  /** On a clock that does not go back, a timer that releases the lock goes off more than a second after
      every step before that took it, connects included, and it leaves no other timer to do so. */
  lemma ReleasedAfterOneSecond(b: Boot, run: seq<State>, steps: seq<Step>, i: nat, id: nat, now: int, j: nat)
    requires IsRun(b, run, steps) && i < |steps| && steps[i] == TimerGoesOff(id, now)
    requires run[i].held && !run[i + 1].held
    ensures now > run[i].lastWakeAt + WAKE_TIMEOUT && run[i].lastWake == Some(id) && Uncancelled(run[i + 1]) == {}
    ensures ClockGoesOn(steps) && j < i && TakenTime(steps[j]).Some? ==> now > TakenTime(steps[j]).value + WAKE_TIMEOUT
  {
    hide IsRun, WatchInv, RequestsInv, NitzInv, Start, ClockGoesOn;
    RunLength(b, run, steps);
    EveryState(b, run, steps, i);
    EveryState(b, run, steps, i + 1);
    RunStep(b, run, steps, i);
    if ClockGoesOn(steps) && j < i && TakenTime(steps[j]).Some? { LatestTaken(b, run, steps, i, j); }
  }

  /** From a step that takes the lock until the remembered timer goes off, the lock is held all the time if
      and only if no notification with bad data comes between. That timer is the one the step has
      started, unless another step takes the lock again. */
  lemma {:induction false} HeldUntilTimer(b: Boot, run: seq<State>, steps: seq<Step>, j: nat, i: nat)
    requires IsRun(b, run, steps) && j < i < |run| && TakenTime(steps[j]).Some?
    requires forall m :: j < m < i ==> !Releases(run[m], steps[m])
    ensures (forall m :: j < m <= i ==> run[m].held) <==> (forall m :: j < m < i ==> !Spoils(steps[m]))
    ensures (forall m :: j < m < i ==> TakenTime(steps[m]).None?) ==> run[i].lastWake == run[j + 1].lastWake
    ensures run[i].lastWake.Some?
  {
    hide IsRun, Inv, Enabled, Next, Start, TakenTime, Spoils, Releases;
    RunLength(b, run, steps);
    EveryState(b, run, steps, i - 1);
    RunStep(b, run, steps, i - 1);
    StepLock(run[i - 1], steps[i - 1]);
    if j < i - 1 {
      HeldUntilTimer(b, run, steps, j, i - 1);
      NotBoth(steps[i - 1]);
    }
  }

  lemma NotBoth(step: Step)
    ensures !(Spoils(step) && TakenTime(step).Some?)
  {
  }

  /** Nothing but a step that takes the lock moves the remembered time. */
  lemma TimeStays(s: State, step: Step)
    requires Inv(s) && Enabled(s, step) && TakenTime(step).None?
    ensures Next(s, step).lastWakeAt == s.lastWakeAt && Next(s, step).lastWake in {s.lastWake, None}
  {
    hide Inv, Enabled, Next;
    StepLock(s, step);
  }

  /** A run of two notifications at the same moment, the second with bad data: the lock is released although
      the first one's timer is still waiting and its second has not passed. */
  lemma EarlyRelease(b: Boot)
    requires GoodBoot(b)
    ensures var steps := [LibraryNotifies(RIL_CONNECTED, true, On, 0), LibraryNotifies(RIL_CONNECTED, false, On, 0)];
            var first := Next(Start(b), steps[0]);
            var second := Next(first, steps[1]);
            && IsRun(b, [Start(b), first, second], steps)
            && first.held && !second.held
            && second.lastWake.Some? && Uncancelled(second) == {second.lastWake.value}
            && second.timers[second.lastWake.value].deadline == WAKE_TIMEOUT
  {
    hide Start, Unsolicited;
    var steps := [LibraryNotifies(RIL_CONNECTED, true, On, 0), LibraryNotifies(RIL_CONNECTED, false, On, 0)];
    var first := Next(Start(b), steps[0]);
    var run := [Start(b), first, Next(first, steps[1])];
    assert IsRun(b, run, steps);
    hide IsRun, Next;
    EveryState(b, run, steps, 0);
    EveryState(b, run, steps, 1);
    StepLock(run[0], steps[0]);
    StepLock(run[1], steps[1]);
    LockIsReleased(b, run, steps, 2);
    hide Inv;
  }

  // ---- nested notifications ----

  /** The notifications that `processRadioState` sends are ordinary calls which neither ask for the radio
      state nor nest any further. */
  lemma NestedOnce(s: State, code: int, radio: Radio, now: int)
    requires code in {VOICE_RADIO_TECH_CHANGED, SUBSCRIPTION_SOURCE_CHANGED, SIM_STATUS_CHANGED}
    ensures Unsolicited(s, code, true, radio, now) == Notify(s, code, Unsol(code), now)
  {
  }

  ghost predicate Stored(t: State, r: Radio) {
    && t.voiceTech == DecodeVoiceTech(r) && t.simStatus == DecodeSimStatus(r)
    && (Is3gpp2(DecodeVoiceTech(r)) ==> t.subscription == DecodeSubscription(r))
  }

  lemma AnnounceStores(s: State, changed: bool, stored: State, code: int, now: int)
    ensures var t, u := Announce(s, changed, stored, code, now), if changed then stored else s;
            t.voiceTech == u.voiceTech && t.simStatus == u.simStatus && t.subscription == u.subscription
  {
  }

  lemma ProcessRadioStateStores(s: State, r: Radio, now: int)
    requires OldRadio(r)
    ensures Stored(ProcessRadioState(s, r, now).0, r)
  {
    hide Announce;
    var tech, source, sim := DecodeVoiceTech(r), DecodeSubscription(r), DecodeSimStatus(r);
    var a := Announce(s, tech != s.voiceTech, s.(voiceTech := tech), VOICE_RADIO_TECH_CHANGED, now);
    AnnounceStores(s, tech != s.voiceTech, s.(voiceTech := tech), VOICE_RADIO_TECH_CHANGED, now);
    var b := Announce(a, Is3gpp2(tech) && source != a.subscription, a.(subscription := source), SUBSCRIPTION_SOURCE_CHANGED, now);
    AnnounceStores(a, Is3gpp2(tech) && source != a.subscription, a.(subscription := source), SUBSCRIPTION_SOURCE_CHANGED, now);
    AnnounceStores(b, sim != b.simStatus, b.(simStatus := sim), SIM_STATUS_CHANGED, now);
  }

  /** The client is never told a state of an older library, and a state that is reported again is
      announced only once: the second time nothing changes. */
  lemma RadioStateSettles(s: State, r: Radio, now: int, later: int)
    ensures !OldRadio(ProcessRadioState(s, r, now).1)
    ensures var t := ProcessRadioState(s, r, now).0; ProcessRadioState(t, r, later).0 == t
  {
    if OldRadio(r) { ProcessRadioStateStores(s, r, now); }
    hide Notify;
  }

  // ---- one client, and NITZ ----

  /** In every state the daemon listens exactly when no client is connected and none is being accepted, and
      watches the command socket exactly when one is connected; at least five of the eight slots stay free,
      and `readFds` is the watched sockets. */
  lemma OneClient(b: Boot, run: seq<State>, steps: seq<Step>, i: nat)
    requires IsRun(b, run, steps) && i < |run|
    ensures var s := run[i];
            && (Watched(s.fds.table, ListenSocket) <==> s.fdCommand < 0 && !s.accepting)
            && (Watched(s.fds.table, CommandSocket) <==> s.fdCommand >= 0)
            && (s.accepting ==> s.fdCommand < 0)
            && FreeSlot(s.fds.table) == (if s.accepting then 1 else 3) && FdsInv(s.fds)
            && s.fds.readFds == {s.boot.wakeupFd, s.boot.debugFd} + if Second(s).Some? then {Second(s).value.fd} else {}
  {
    hide IsRun, RequestsInv, WakeInv, NitzInv, FdsInv, Watched, FreeSlot, Second;
    EveryState(b, run, steps, i);
    WatchMeans(run[i]);
    SocketsWatched(run[i]);
  }

  lemma SocketsWatched(s: State)
    requires WatchInv(s)
    ensures s.fds.readFds == {s.boot.wakeupFd, s.boot.debugFd} + if Second(s).Some? then {Second(s).value.fd} else {}
  {
    var t := s.fds.table;
    var more: set<int> := if Second(s).Some? then {Second(s).value.fd} else {};
    assert t[0].value.fd == s.boot.wakeupFd && t[1] == Second(s) && t[2].value.fd == s.boot.debugFd;
    forall n ensures n in s.fds.readFds <==> n in {s.boot.wakeupFd, s.boot.debugFd} + more {
      assert n in s.fds.readFds <==> WatchedFd(t, n);
    }
  }

  lemma ThirdFree(table: Table<Event>, first: Watch<Event>, third: Watch<Event>, w: Watch<Event>)
    requires table == Three(first, None, third) && w.fd !in {first.fd, third.fd} && w.ev !in {first.ev, third.ev}
    ensures !WatchedFd(table, w.fd) && !Watched(table, w.ev)
  {
  }

  /** The daemon uses the event module as that asks of its callers: whatever a step adds is on a valid
      descriptor and neither it nor its descriptor is watched already. */
  lemma AddsAreAllowed(b: Boot, run: seq<State>, steps: seq<Step>, i: nat)
    requires IsRun(b, run, steps) && i < |steps| && (steps[i].ClientConnects? || steps[i].ClientGone?)
    ensures var s, step := run[i], steps[i];
            var table := if step.ClientGone? then DeleteWatch(s.fds, CommandSocket).table else s.fds.table;
            var w := if step.ClientConnects? && step.accepted.Phone? then Watch(CommandSocket, step.accepted.fd, true)
                     else Watch(ListenSocket, b.listenFd, false);
            && w.fd >= 0 && !WatchedFd(table, w.fd) && !Watched(table, w.ev)
            && run[i + 1].fds == AddWatch(if step.ClientGone? then DeleteWatch(s.fds, CommandSocket) else s.fds, w)
  {
    hide IsRun, Inv, Start, Enabled, Next;
    RunLength(b, run, steps);
    EveryState(b, run, steps, i);
    RunStep(b, run, steps, i);
    SameBoot(b, run, steps, i);
    StepAdds(run[i], steps[i]);
  }

  lemma StepAdds(s: State, step: Step)
    requires Inv(s) && Enabled(s, step) && (step.ClientConnects? || step.ClientGone?)
    ensures var table := if step.ClientGone? then DeleteWatch(s.fds, CommandSocket).table else s.fds.table;
            var w := if step.ClientConnects? && step.accepted.Phone? then Watch(CommandSocket, step.accepted.fd, true)
                     else Watch(ListenSocket, s.boot.listenFd, false);
            && w.fd >= 0 && !WatchedFd(table, w.fd) && !Watched(table, w.ev)
            && Next(s, step).fds == AddWatch(if step.ClientGone? then DeleteWatch(s.fds, CommandSocket) else s.fds, w)
  {
    hide RequestsInv, WakeInv, NitzInv, FdsInv, Watched, WatchedFd, AddWatch, DeleteWatch, CancelAll, Greet;
    WatchMeans(s);
    var first, third := Watch(WakeupPipe, s.boot.wakeupFd, true), Watch(DebugSocket, s.boot.debugFd, true);
    if step.ClientGone? {
      Left(s.fds, first, Watch(CommandSocket, s.fdCommand, true), third);
      ThirdFree(DeleteWatch(s.fds, CommandSocket).table, first, third, Watch(ListenSocket, s.boot.listenFd, false));
    } else if step.accepted.Phone? {
      ThirdFree(s.fds.table, first, third, Watch(CommandSocket, step.accepted.fd, true));
      GreetWatches(Opened(s, step.accepted.fd), step.radio, step.now);
    } else {
      ThirdFree(s.fds.table, first, third, Watch(ListenSocket, s.boot.listenFd, false));
    }
  }

  lemma GreetWatches(s: State, radio: Radio, now: int)
    ensures Greet(s, radio, now).fds == s.fds
  {
    hide Unsolicited;
    UnsolicitedKeeps(s, RIL_CONNECTED, true, radio, now);
    UnsolicitedKeeps(Unsolicited(s, RIL_CONNECTED, true, radio, now), RADIO_STATE_CHANGED, true, radio, now);
  }

  lemma {:induction false} SameBoot(b: Boot, run: seq<State>, steps: seq<Step>, i: nat)
    requires IsRun(b, run, steps) && i < |run|
    ensures run[i].boot == b
  {
    hide IsRun, Inv, Enabled, Next;
    RunLength(b, run, steps);
    if i > 0 {
      SameBoot(b, run, steps, i - 1);
      EveryState(b, run, steps, i - 1);
      RunStep(b, run, steps, i - 1);
      StepBoot(run[i - 1], steps[i - 1]);
    }
  }

  lemma StepBoot(s: State, step: Step)
    requires Inv(s) && Enabled(s, step)
    ensures Next(s, step).boot == s.boot
  {
    hide WatchInv, WakeInv, NitzInv, RequestsInv, Command, Complete, Unsolicited, Watched, AddWatch, DeleteWatch,
      CancelAll, Greet, Received;
    WatchMeans(s);
    match step
    case ClientConnects(accepted, radio, now) =>
      if accepted.Phone? {
        assert accepted.fd >= 0 && accepted.fd !in {s.boot.wakeupFd, s.boot.listenFd, s.boot.debugFd};
        PhoneKeeps(s, accepted.fd, radio, now);
      }
    case ClientCommand(block, radio) => ReceivedKeepsRequests(s, block, radio);
    case LibraryCompletes(id, error) => CompleteKeeps(s, id, error);
    case LibraryNotifies(code, ok, radio, now) => UnsolicitedKeeps(s, code, ok, radio, now);
    case _ =>
  }

  /** Over a run NITZ messages are written in the order received, each at most once, and a message is
      missing from the wire only while it waits for a client or when a later one took its place. */
  lemma NitzInOrder(b: Boot, run: seq<State>, steps: seq<Step>, i: nat)
    requires IsRun(b, run, steps) && i < |run|
    ensures var s, n := run[i], NitzOf(run[i].wire);
            && (forall j, k :: 0 <= j < k < |n| ==> n[j] < n[k])
            && (s.fdCommand >= 0 ==> s.lastNitz.None?)
            && (s.nextNitz > 0 ==> if s.lastNitz.Some? then s.lastNitz.value == Nitz(s.nextNitz - 1) && s.nextNitz - 1 !in n
                                   else n != [] && n[|n| - 1] == s.nextNitz - 1)
  {
    hide IsRun, WatchInv, RequestsInv, WakeInv, NitzOf;
    EveryState(b, run, steps, i);
  }

  lemma ConnectStep(s: State, fd: int, radio: Radio, now: int)
    requires Inv(s) && Enabled(s, ClientConnects(Phone(fd), radio, now))
    ensures NitzOf(Listen(s, Phone(fd), radio, now).wire) == NitzOf(s.wire) + if s.lastNitz.Some? then [s.nextNitz - 1] else []
  {
    hide WatchInv, RequestsInv, WakeInv, NitzInv, NitzOf, AddWatch, DeleteWatch, Greet, Watched;
    WatchMeans(s);
    OpenedWaits(s, fd);
    ConnectReplays(Opened(s, fd), radio, now);
  }

  /** Each client that connects is sent exactly the latest message missed since the one before. */
  lemma EachConnectReplays(b: Boot, run: seq<State>, steps: seq<Step>, i: nat, fd: int, radio: Radio, now: int)
    requires IsRun(b, run, steps) && i < |steps| && steps[i] == ClientConnects(Phone(fd), radio, now)
    ensures NitzOf(run[i + 1].wire) == NitzOf(run[i].wire) + if run[i].lastNitz.Some? then [run[i].nextNitz - 1] else []
  {
    hide Inv, NitzOf, Listen, IsRun, Enabled, Start;
    RunLength(b, run, steps);
    EveryState(b, run, steps, i);
    RunStep(b, run, steps, i);
    ConnectStep(run[i], fd, radio, now);
  }
}
