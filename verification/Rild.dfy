/** The state changing form of the daemon in `ril.cpp`: the linked list of pending requests, and the
    callbacks over the daemon's globals, each proved to do what its step does. */
module Rild {
  import opened Wrappers
  import opened EventSpec
  import opened Bytes
  import opened RilProtocol
  import RilRuns

  /** `RequestInfo`. Its identity is its address; `id` and `conn` stand for it in the steps. */
  class RequestInfo {
    const token: int
    const code: int
    const local: bool
    var cancelled: bool
    var next: RequestInfo?
    const id: nat
    const conn: nat

    constructor (token: int, code: int, local: bool, next: RequestInfo?, id: nat, conn: nat)
      ensures this.token == token && this.code == code && this.local == local && this.next == next
      ensures this.id == id && this.conn == conn && !cancelled
    {
      this.token, this.code, this.local, this.next, this.id, this.conn := token, code, local, next, id, conn;
      cancelled := false;
    }

    ghost function View(): Request
      reads this
    {
      Request(id, token, code, local, cancelled, conn)
    }
  }

  ghost function Views(chain: seq<RequestInfo>): (r: seq<Request>)
    reads chain
    ensures |r| == |chain|
    ensures forall i :: 0 <= i < |r| ==> r[i] == chain[i].View()
  {
    seq(|chain|, i requires 0 <= i < |chain| reads chain => chain[i].View())
  }

  /** Taking out the `i`th request, with nothing else changed in any. */
  twostate lemma Spliced(chain: seq<RequestInfo>, new i: nat)
    requires i < |chain| && forall q <- chain :: q.cancelled == old(q.cancelled)
    ensures Views(chain[..i] + chain[i + 1..]) == old(Views(chain)[..i] + Views(chain)[i + 1..])
  {
    var rest := chain[..i] + chain[i + 1..];
    forall k | 0 <= k < |rest| ensures Views(rest)[k] == old(Views(chain)[..i] + Views(chain)[i + 1..])[k] {
      assert rest[k] == chain[if k < i then k else k + 1];
    }
  }

  /** The `i`th request of the chain, or null past its end. */
  ghost function At(chain: seq<RequestInfo>, i: nat): RequestInfo? {
    if i < |chain| then chain[i] else null
  }

  /** The list from `s_pendingRequests` on. */
  class PendingRequests {
    var head: RequestInfo?
    ghost var chain: seq<RequestInfo>
    /** The tokens given out; they are distinct, and what is pending is among them. */
    ghost var issued: set<RequestInfo>

    ghost predicate Valid()
      reads this, chain
    {
      && (forall q <- chain :: q in issued)
      && (forall q <- issued, r <- issued :: q.id == r.id ==> q == r)
      && head == At(chain, 0)
      && (forall i {:trigger At(chain, i)} :: 0 < i <= |chain| ==> chain[i - 1].next == At(chain, i))
      && (forall i, j :: 0 <= i < j < |chain| ==> chain[i].id != chain[j].id)
    }

    ghost function View(): seq<Request>
      reads this, chain
    {
      Views(chain)
    }

    constructor ()
      ensures Valid() && View() == [] && chain == [] && issued == {}
    {
      head, chain, issued := null, [], {};
    }

    /** A new request goes to the front. */
    method Push(token: int, code: int, local: bool, id: nat, conn: nat) returns (r: RequestInfo)
      requires Valid()
      requires forall q <- issued :: q.id != id
      modifies this
      ensures Valid() && fresh(r) && chain == [r] + old(chain) && issued == old(issued) + {r}
      ensures r.id == id && View() == [Request(id, token, code, local, false, conn)] + old(View())
    {
      hide Views;
      r := new RequestInfo(token, code, local, head, id, conn);
      head, chain, issued := r, [r] + chain, issued + {r};
      forall i | 0 < i <= |chain| ensures chain[i - 1].next == At(chain, i) {
        if i > 1 { assert At(old(chain), i - 1) == At(chain, i); }
      }
    }

    /** `*ppCur = (*ppCur)->p_next`, where `ppCur` is the head or the link of the request before. */
    method Unlink(last: RequestInfo?, cur: RequestInfo, ghost i: nat)
      requires Valid() && i < |chain| && cur == chain[i] && last == (if i == 0 then null else chain[i - 1])
      modifies this`head, this`chain, issued
      ensures Valid() && chain == old(chain)[..i] + old(chain)[i + 1..]
      ensures forall q <- old(chain) :: q.cancelled == old(q.cancelled)
    {
      if last == null { head := cur.next; } else { last.next := cur.next; }
      chain := chain[..i] + chain[i + 1..];
      assert At(old(chain), i + 1) == At(chain, i);
      forall k | 0 < k <= |chain| ensures chain[k - 1].next == At(chain, k) {
        if k < i { assert At(old(chain), k) == At(chain, k); }
        if k > i { assert At(old(chain), k + 1) == At(chain, k); }
      }
    }

    /** `checkAndDequeueRequestInfo`: unlink the request if it is there, and say so. */
    method CheckAndDequeue(r: RequestInfo) returns (found: bool)
      requires Valid() && r in issued
      modifies this`head, this`chain, issued
      ensures Valid() && found == (r in old(chain))
      ensures View() == Dequeue(old(View()), r.id)
      ensures found == (Find(old(View()), r.id) < |old(View())|) && r.cancelled == old(r.cancelled)
    {
      hide Views, Find;
      var last: RequestInfo?, cur := null, head;
      ghost var i := 0;
      while cur != null && cur != r
        invariant 0 <= i <= |chain| && cur == At(chain, i)
        invariant last == (if i == 0 then null else chain[i - 1])
        invariant forall k :: 0 <= k < i ==> chain[k] != r
        modifies {}
        decreases |chain| - i
      {
        last, cur, i := cur, cur.next, i + 1;
      }
      FindIs(View(), i, r.id);
      found := cur != null;
      if cur != null {
        Unlink(last, cur, i);
        Spliced(old(chain), i);
      }
    }

    /** `onCommandsSocketClosed`: every pending request is marked. */
    method CancelEach()
      requires Valid()
      modifies issued
      ensures Valid() && View() == CancelAll(old(View()))
    {
      var cur := head;
      ghost var i := 0;
      while cur != null
        invariant 0 <= i <= |chain| && Valid()
        invariant cur == At(chain, i)
        invariant forall k :: 0 <= k < |chain| ==> chain[k].cancelled == (k < i || old(chain[k].cancelled))
        decreases |chain| - i
      {
        cur.cancelled := true;
        cur, i := cur.next, i + 1;
      }
      assert View() == CancelAll(old(View()));
    }
  }

  /** The globals of `ril.cpp`. The watch table, the timers and the written packets are those of the event
      loop and the socket; requests, timers and NITZ messages are numbered as they come. */
  class Daemon {
    const boot: Boot
    const requests: PendingRequests
    var fds: Fds<Event>
    var fdCommand: int
    ghost var accepting: bool
    var conn: nat
    var nextId: nat
    var wire: seq<Sent>
    var lastNitz: Option<Packet>
    var nextNitz: nat
    var held: bool
    var lastWake: Option<nat>
    ghost var lastWakeAt: int
    var timers: map<nat, Timer>
    var nextTimer: nat
    var voiceTech: Option<VoiceTech>
    var subscription: Option<Subscription>
    var simStatus: Option<Radio>
    ghost var origin: map<nat, Request>

    ghost function View(): State
      reads this, requests, requests.chain
    {
      State(boot, fds, fdCommand, accepting, conn, requests.View(), nextId, wire, lastNitz, nextNitz, held, lastWake, lastWakeAt,
            timers, nextTimer, voiceTech, subscription, simStatus, origin)
    }

    ghost predicate Valid()
      reads this, requests, requests.chain
    {
      requests.Valid() && forall q <- requests.issued :: q.id < nextId
    }

    /** `RIL_register` after the sockets are there. */
    constructor (boot: Boot)
      ensures Valid() && View() == Start(boot) && fresh(requests) && requests.issued == {}
    {
      this.boot := boot;
      requests := new PendingRequests();
      fds := NoneWatched();
      fdCommand, accepting, conn, nextId, wire, lastNitz, nextNitz := -1, false, 0, 0, [], None, 0;
      held, lastWake, lastWakeAt, timers, nextTimer := false, None, 0, map[], 0;
      voiceTech, subscription, simStatus, origin := None, None, None, map[];
      new;
      fds := AddWatch(fds, Watch(WakeupPipe, boot.wakeupFd, true));
      fds := AddWatch(fds, Watch(ListenSocket, boot.listenFd, false));
      fds := AddWatch(fds, Watch(DebugSocket, boot.debugFd, true));
    }

    method SendResponse(p: Packet) returns (sent: bool)
      requires Valid()
      modifies this`wire
      ensures Valid() && View() == Send(old(View()), p) && sent == (fdCommand >= 0)
    {
      if fdCommand < 0 { return false; }
      wire := wire + [Sent(conn, p)];
      return true;
    }

    /** `RIL_onRequestComplete`. */
    method OnRequestComplete(t: RequestInfo, e: Errno)
      requires Valid() && t in requests.issued
      modifies this`wire, requests`head, requests`chain, requests.issued
      ensures Valid() && View() == Complete(old(View()), t.id, e)
      ensures requests.issued == old(requests.issued)
    {
      var found := requests.CheckAndDequeue(t);
      if !found || t.local { return; }
      if !t.cancelled {
        var _ := SendResponse(Response(t.id, t.token, e));
      }
    }

    method Enqueue(token: int, code: int, local: bool) returns (r: RequestInfo)
      requires Valid()
      modifies this`nextId, this`origin, requests
      ensures Valid() && View() == RilProtocol.Enqueue(old(View()), token, code, local)
      ensures fresh(r) && r.id == old(nextId) && requests.issued == old(requests.issued) + {r}
    {
      r := requests.Push(token, code, local, nextId, conn);
      origin := origin[nextId := Request(nextId, token, code, local, false, conn)];
      nextId := nextId + 1;
    }

    method IssueLocalRequest(code: int)
      requires Valid()
      modifies this`nextId, this`origin, requests
      ensures Valid() && View() == IssueLocal(old(View()), code)
    {
      var _ := Enqueue(0xffff_ffff, code, true);
    }

    /** The completions of `dispatchVoiceRadioTech` and `dispatchCdmaSubscriptionSource`; the library is
        asked when the radio is on. */
    method CompleteDecoded(r: RequestInfo, radio: Radio, decoded: bool)
      requires Valid() && r in requests.issued
      modifies this`wire, requests`head, requests`chain, requests.issued
      ensures Valid() && View() == DispatchDecoded(old(View()), r.id, radio, decoded)
    {
      hide Complete;
      if radio.Unavailable? || radio.Off? {
        OnRequestComplete(r, RadioNotAvailable);
      }
      if radio.On? { return; }
      if !decoded {
        OnRequestComplete(r, GenericFailure);
      } else {
        OnRequestComplete(r, Success);
      }
    }

    method DispatchVoiceRadioTech(r: RequestInfo, radio: Radio)
      requires Valid() && r in requests.issued
      modifies this`wire, this`voiceTech, requests`head, requests`chain, requests.issued
      ensures Valid() && View() == AskVoiceTech(old(View()), r.id, radio)
    {
      hide DispatchDecoded;
      var tech := DecodeVoiceTech(radio);
      CompleteDecoded(r, radio, tech.Some?);
      if !radio.On? { voiceTech := tech; }
    }

    method DispatchCdmaSubscriptionSource(r: RequestInfo, radio: Radio)
      requires Valid() && r in requests.issued
      modifies this`wire, this`subscription, requests`head, requests`chain, requests.issued
      ensures Valid() && View() == AskSubscription(old(View()), r.id, radio)
    {
      hide DispatchDecoded;
      var source := DecodeSubscription(radio);
      CompleteDecoded(r, radio, source.Some?);
      if !radio.On? { subscription := source; }
    }

    /** `processCommandBuffer`. */
    method ProcessCommandBuffer(block: seq<byte>, radio: Radio)
      requires Valid()
      modifies this`wire, this`nextId, this`origin, this`voiceTech, this`subscription, requests, requests.issued
      ensures Valid() && View() == Received(old(View()), block, radio)
    {
      hide AskVoiceTech, AskSubscription, RilProtocol.Enqueue, Send;
      var header := Header(block);
      if header.None? { return; }
      var (code, token) := header.value;
      if code < 1 || code >= NUM_COMMANDS {
        var _ := SendResponse(Unsupported(token));
        return;
      }
      var r := Enqueue(token, code, false);
      if code == VOICE_RADIO_TECH {
        DispatchVoiceRadioTech(r, radio);
      } else if code == CDMA_GET_SUBSCRIPTION_SOURCE {
        DispatchCdmaSubscriptionSource(r, radio);
      }
    }

    /** `internalRequestTimedCallback`. */
    method RequestTimer(t: Timer) returns (id: nat)
      requires Valid()
      modifies this`timers, this`nextTimer
      ensures Valid() && id == old(nextTimer)
      ensures View() == old(View()).(timers := old(timers)[id := t], nextTimer := id + 1)
    {
      id := nextTimer;
      timers, nextTimer := timers[id := t], id + 1;
    }

    method UserTimerCallback(id: nat)
      requires Valid() && id in timers
      modifies this`held, this`lastWake, this`timers
      ensures Valid() && View() == TimerFires(old(View()), id)
    {
      if timers[id].Wake? && !timers[id].cancelled { held := false; }
      if lastWake == Some(id) { lastWake := None; }
      timers := timers - {id};
    }

    method ScheduleTimeout(now: int)
      requires Valid()
      modifies this`timers, this`nextTimer, this`lastWake, this`lastWakeAt
      ensures Valid() && View() == ScheduleWake(old(View()), now)
    {
      hide PendingRequests.View, PendingRequests.Valid;
      if lastWake.Some? && lastWake.value in timers && timers[lastWake.value].Wake? {
        timers := timers[lastWake.value := timers[lastWake.value].(cancelled := true)];
      }
      var id := RequestTimer(Wake(false, now + WAKE_TIMEOUT));
      lastWake, lastWakeAt := Some(id), now;
    }

    method GrabPartialWakeLock()
      requires Valid()
      modifies this`held
      ensures Valid() && View() == old(View()).(held := true)
    {
      held := true;
    }

    method ReleaseWakeLock()
      requires Valid()
      modifies this`held
      ensures Valid() && View() == old(View()).(held := false)
    {
      held := false;
    }

    /** The number of the NITZ message at hand. */
    method NumberNitz() returns (n: nat)
      requires Valid()
      modifies this`nextNitz
      ensures Valid() && n == old(View()).nextNitz && View() == old(View()).(nextNitz := n + 1)
    {
      n, nextNitz := nextNitz, nextNitz + 1;
    }

    /** The end of `RIL_onUnsolicitedResponse`: send the packet, keep a NITZ message that could not be sent,
        and schedule the release of the lock. */
    method Deliver(code: int, p: Packet, now: int)
      requires Valid() && (WakesPartially(code) ==> View().held)
      modifies this`wire, this`lastNitz, this`lastWake, this`lastWakeAt, this`timers, this`nextTimer
      ensures Valid()
      ensures var t := Notify(old(View()), code, p, now);
              View() == if code == NITZ_TIME_RECEIVED && old(View()).fdCommand < 0 then t.(lastNitz := Some(p)) else t
    {
      hide PendingRequests.View, PendingRequests.Valid;
      var sent := SendResponse(p);
      if !sent && code == NITZ_TIME_RECEIVED { lastNitz := Some(p); }
      if WakesPartially(code) { ScheduleTimeout(now); }
    }

    /** `RIL_onUnsolicitedResponse`, which calls itself through `processRadioState`, once. */
    method OnUnsolicitedResponse(code: int, ok: bool, radio: Radio, now: int)
      requires Valid()
      modifies this`held, this`wire, this`lastNitz, this`nextNitz, this`lastWake, this`lastWakeAt, this`timers, this`nextTimer,
        this`voiceTech, this`subscription, this`simStatus
      ensures Valid() && View() == Unsolicited(old(View()), code, ok, radio, now)
      decreases if code == RADIO_STATE_CHANGED then 3 else 0
    {
      hide ProcessRadioState, Notify, Daemon.View, Daemon.Valid;
      if code < UNSOL_BASE || code >= UNSOL_BASE + NUM_UNSOL { return; }
      ghost var before := View();
      NotifyTakes(before, code, Unsol(code), now);
      NotifyTakes(before.(nextNitz := before.nextNitz + 1), code, Nitz(before.nextNitz), now);
      var shouldScheduleTimeout := WakesPartially(code);
      if shouldScheduleTimeout { GrabPartialWakeLock(); }
      if !ok {
        if shouldScheduleTimeout { ReleaseWakeLock(); }
        return;
      }
      if code == RADIO_STATE_CHANGED {
        StaysHeld(before.(held := true), radio, now);
        var state := ProcessState(radio, now);
        Deliver(code, RadioState(state), now);
      } else if code == NITZ_TIME_RECEIVED {
        var n := NumberNitz();
        Deliver(code, Nitz(n), now);
      } else {
        Deliver(code, Unsol(code), now);
      }
    }

    method AnnounceTech(newTech: Option<VoiceTech>, r: Radio, now: int)
      requires Valid()
      modifies this`held, this`wire, this`lastNitz, this`nextNitz, this`lastWake, this`lastWakeAt, this`timers, this`nextTimer,
        this`voiceTech, this`subscription, this`simStatus
      ensures Valid()
      ensures View() == Announce(old(View()), newTech != old(voiceTech), old(View()).(voiceTech := newTech),
                                 VOICE_RADIO_TECH_CHANGED, now)
      decreases 1
    {
      hide Unsolicited, Notify;
      if newTech != voiceTech {
        voiceTech := newTech;
        RilRuns.NestedOnce(View(), VOICE_RADIO_TECH_CHANGED, r, now);
        OnUnsolicitedResponse(VOICE_RADIO_TECH_CHANGED, true, r, now);
      }
    }

    method AnnounceSource(newSource: Option<Subscription>, r: Radio, now: int)
      requires Valid()
      modifies this`held, this`wire, this`lastNitz, this`nextNitz, this`lastWake, this`lastWakeAt, this`timers, this`nextTimer,
        this`voiceTech, this`subscription, this`simStatus
      ensures Valid()
      ensures View() == Announce(old(View()), newSource != old(subscription), old(View()).(subscription := newSource),
                                 SUBSCRIPTION_SOURCE_CHANGED, now)
      decreases 1
    {
      hide Unsolicited, Notify;
      if newSource != subscription {
        subscription := newSource;
        RilRuns.NestedOnce(View(), SUBSCRIPTION_SOURCE_CHANGED, r, now);
        OnUnsolicitedResponse(SUBSCRIPTION_SOURCE_CHANGED, true, r, now);
      }
    }

    method AnnounceSim(newSim: Option<Radio>, r: Radio, now: int)
      requires Valid()
      modifies this`held, this`wire, this`lastNitz, this`nextNitz, this`lastWake, this`lastWakeAt, this`timers, this`nextTimer,
        this`voiceTech, this`subscription, this`simStatus
      ensures Valid()
      ensures View() == Announce(old(View()), newSim != old(simStatus), old(View()).(simStatus := newSim),
                                 SIM_STATUS_CHANGED, now)
      decreases 1
    {
      hide Unsolicited, Notify;
      if newSim != simStatus {
        simStatus := newSim;
        RilRuns.NestedOnce(View(), SIM_STATUS_CHANGED, r, now);
        OnUnsolicitedResponse(SIM_STATUS_CHANGED, true, r, now);
      }
    }

    /** `processRadioState`. */
    method ProcessState(r: Radio, now: int) returns (state: Radio)
      requires Valid()
      modifies this`held, this`wire, this`lastNitz, this`nextNitz, this`lastWake, this`lastWakeAt, this`timers, this`nextTimer,
        this`voiceTech, this`subscription, this`simStatus
      ensures Valid() && (View(), state) == ProcessRadioState(old(View()), r, now)
      decreases 2
    {
      hide Announce;
      if !OldRadio(r) { return r; }
      AnnounceTech(DecodeVoiceTech(r), r, now);
      ghost var a := View();
      if Is3gpp2(DecodeVoiceTech(r)) {
        AnnounceSource(DecodeSubscription(r), r, now);
      }
      NoChange(a, a.(subscription := DecodeSubscription(r)), SUBSCRIPTION_SOURCE_CHANGED, now);
      AnnounceSim(DecodeSimStatus(r), r, now);
      state := On;
    }

    /** The end of `onNewCommandConnect`. */
    method ReplayNitz()
      requires Valid()
      modifies this`wire, this`lastNitz
      ensures Valid()
      ensures var s := old(View()); View() == if s.lastNitz.Some? then Send(s, s.lastNitz.value).(lastNitz := None) else s
    {
      hide PendingRequests.View, PendingRequests.Valid;
      if lastNitz.Some? {
        var _ := SendResponse(lastNitz.value);
        lastNitz := None;
      }
    }

    method OnNewCommandConnect(radio: Radio, now: int)
      requires Valid()
      modifies this`held, this`wire, this`lastNitz, this`nextNitz, this`lastWake, this`lastWakeAt, this`timers, this`nextTimer,
        this`voiceTech, this`subscription, this`simStatus
      ensures Valid() && View() == Greet(old(View()), radio, now)
    {
      hide Unsolicited, Daemon.View, Daemon.Valid;
      OnUnsolicitedResponse(RIL_CONNECTED, true, radio, now);
      OnUnsolicitedResponse(RADIO_STATE_CHANGED, true, radio, now);
      ReplayNitz();
    }

    method OnCommandsSocketClosed()
      requires Valid()
      modifies requests.issued
      ensures Valid() && View() == old(View()).(pending := CancelAll(old(View()).pending))
    {
      requests.CancelEach();
    }

    lemma ViewBoot()
      ensures View().boot == boot
    {
    }

    /** `rilEventAddWakeup`. */
    method AddEvent(w: Watch<Event>)
      requires Valid()
      modifies this`fds
      ensures Valid() && View() == old(View()).(fds := AddWatch(old(View()).fds, w))
    {
      fds := AddWatch(fds, w);
    }

    /** `ril_event_del`, or the removal of a one-shot event that is ready. */
    method DeleteEvent(ev: Event)
      requires Valid()
      modifies this`fds
      ensures Valid() && View() == old(View()).(fds := DeleteWatch(old(View()).fds, ev))
    {
      fds := DeleteWatch(fds, ev);
    }

    /** `s_fdCommand` is -1 again. */
    method ForgetCommand()
      requires Valid()
      modifies this`fdCommand
      ensures Valid() && View() == old(View()).(fdCommand := -1)
    {
      fdCommand := -1;
    }

    /** A new connection. */
    method Connected(fd: int)
      requires Valid()
      modifies this`fdCommand, this`conn
      ensures Valid() && View() == old(View()).(fdCommand := fd, conn := old(View()).conn + 1)
    {
      fdCommand, conn := fd, conn + 1;
    }

    /** `processReadReadies` has queued the listen event and taken it from the table. */
    method ListenQueued()
      requires Valid()
      modifies this`fds, this`accepting
      ensures Valid() && View() == ListenReady(old(View()))
    {
      hide DeleteWatch;
      DeleteEvent(ListenSocket);
      accepting := true;
    }

    ghost method Called()
      requires Valid()
      modifies this`accepting
      ensures Valid() && View() == old(View()).(accepting := false)
    {
      accepting := false;
    }

    /** `listenCallback`. */
    method ListenCallback(accepted: Accepted, radio: Radio, now: int)
      requires Valid() && fdCommand < 0
      modifies this`fds, this`fdCommand, this`accepting, this`conn, this`held, this`wire, this`lastNitz, this`nextNitz, this`lastWake,
        this`lastWakeAt, this`timers, this`nextTimer, this`voiceTech, this`subscription, this`simStatus, requests.issued
      ensures Valid() && View() == Listen(old(View()), accepted, radio, now)
    {
      hide Greet, AddWatch, CancelAll, Daemon.View, Daemon.Valid;
      ViewBoot();
      Called();
      match accepted
      case Failed =>
        ForgetCommand();
        AddEvent(Watch(ListenSocket, boot.listenFd, false));
      case NotPhone =>
        ForgetCommand();
        OnCommandsSocketClosed();
        AddEvent(Watch(ListenSocket, boot.listenFd, false));
      case Phone(fd) =>
        Connected(fd);
        AddEvent(Watch(CommandSocket, fd, true));
        OnNewCommandConnect(radio, now);
    }

    /** `processCommandsCallback` at the end of the stream. */
    method CommandsClosed()
      requires Valid()
      modifies this`fdCommand, this`fds, requests.issued
      ensures Valid() && View() == Disconnect(old(View()))
    {
      hide AddWatch, DeleteWatch, CancelAll, Daemon.View, Daemon.Valid;
      ViewBoot();
      ForgetCommand();
      DeleteEvent(CommandSocket);
      AddEvent(Watch(ListenSocket, boot.listenFd, false));
      OnCommandsSocketClosed();
    }
  }

  lemma NotifyTakes(s: State, code: int, p: Packet, now: int)
    ensures WakesPartially(code) ==> Notify(s.(held := true), code, p, now) == Notify(s, code, p, now)
  {
  }

  /** What `processRadioState` announces does not give up the lock. */
  lemma StaysHeld(s: State, r: Radio, now: int)
    requires s.held
    ensures ProcessRadioState(s, r, now).0.held
  {
    forall t: State, changed: bool, stored: State, code: int
      ensures t.held && stored.held ==> Announce(t, changed, stored, code, now).held {}
    hide Announce;
  }

  lemma NoChange(s: State, stored: State, code: int, now: int)
    ensures Announce(s, false, stored, code, now) == s
  {
  }

  lemma FindIs(pending: seq<Request>, i: nat, id: nat)
    requires i <= |pending| && (i < |pending| ==> pending[i].id == id)
    requires forall k :: 0 <= k < i ==> pending[k].id != id
    ensures Find(pending, id) == i
  {
  }
}
