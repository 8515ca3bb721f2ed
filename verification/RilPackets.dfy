/** What the steps of the daemon read, write and store, spelt out packet by packet and byte by byte. */
module RilPackets {
  import opened Wrappers
  import opened EventSpec
  import opened Bytes
  import opened CdmaParcel
  import opened RilProtocol
  import opened RilRuns

  /** The daemon starts with no client, nothing pending, written, kept or decoded, no timer and no lock, and it
      watches three sockets in the order in which it adds them. */
  lemma StartIs(b: Boot)
    requires GoodBoot(b)
    ensures var s := Start(b);
            && s.fdCommand < 0 && !s.accepting && s.pending == [] && s.wire == [] && s.lastNitz.None? && s.nextNitz == 0
            && s.timers == map[] && s.lastWake.None? && !s.held
            && s.voiceTech.None? && s.subscription.None? && s.simStatus.None?
            && s.fds.table == [Some(Watch(WakeupPipe, b.wakeupFd, true)), Some(Watch(ListenSocket, b.listenFd, false)),
                               Some(Watch(DebugSocket, b.debugFd, true)), None, None, None, None, None]
  {
    StartWatches(b);
    hide AddWatch, NoneWatched, FdsInv;
  }

  // ---- request blocks ----

  /** A request block: the request code, the token, and whatever the request carries. */
  function Block(code: int32, token: int32, rest: seq<byte>): seq<byte> { IntWord(code) + IntWord(token) + rest }

  lemma HeaderIs(code: int32, token: int32, rest: seq<byte>)
    ensures Header(Block(code, token, rest)) == Some((code, token))
  {
    hide IntWord, WordInt;
    var block := Block(code, token, rest);
    assert block[..4] == IntWord(code) && block[4..8] == IntWord(token);
    WordIntRoundTrip(code);
    WordIntRoundTrip(token);
  }

  /** A request that the library is to answer is put in front of the pending ones with the code and the token
      of its block, and nothing is written. */
  lemma BlockQueues(s: State, code: int32, token: int32, rest: seq<byte>, radio: Radio)
    requires 1 <= code < NUM_COMMANDS && code !in {VOICE_RADIO_TECH, CDMA_GET_SUBSCRIPTION_SOURCE}
    ensures var r := Request(s.nextId, token, code, false, false, s.conn);
            Received(s, Block(code, token, rest), radio)
            == s.(pending := [r] + s.pending, nextId := s.nextId + 1, origin := s.origin[s.nextId := r])
  {
    HeaderIs(code, token, rest);
    hide Block, Header;
  }

  /** A code that is not supported is answered at once, with the token of its block; and a block without a
      whole header is not answered. */
  lemma BlockRefused(s: State, code: int32, token: int32, rest: seq<byte>, radio: Radio, short: seq<byte>)
    ensures code < 1 || code >= NUM_COMMANDS ==>
              Received(s, Block(code, token, rest), radio)
              == if s.fdCommand < 0 then s else s.(wire := s.wire + [Sent(s.conn, Unsupported(token))])
    ensures |short| < 8 ==> Received(s, short, radio) == s
  {
    HeaderIs(code, token, rest);
    hide Block;
  }

  /** The two requests that are completed here: with the radio on nothing is written and the request waits,
      otherwise it gets exactly one response, with its token; and the value decoded from the radio state, if
      any, is stored. */
  lemma BlockDecoded(s: State, code: int32, token: int32, rest: seq<byte>, radio: Radio)
    requires RequestsInv(s) && s.fdCommand >= 0
    requires code in {VOICE_RADIO_TECH, CDMA_GET_SUBSCRIPTION_SOURCE}
    ensures var t := Received(s, Block(code, token, rest), radio);
            && (if radio.On? then
                  t.wire == s.wire && t.pending == [Request(s.nextId, token, code, false, false, s.conn)] + s.pending
                else
                  && t.pending == s.pending
                  && t.wire == s.wire + [Sent(s.conn, Response(s.nextId, token,
                                         if radio.Off? || radio.Unavailable? then RadioNotAvailable else Success))])
            && t.voiceTech == (if code == VOICE_RADIO_TECH && !radio.On? then DecodeVoiceTech(radio) else s.voiceTech)
            && t.subscription == (if code == CDMA_GET_SUBSCRIPTION_SOURCE && !radio.On? then DecodeSubscription(radio)
                                  else s.subscription)
            && t.simStatus == s.simStatus
  {
    HeaderIs(code, token, rest);
    DecodedOnce(s, code, token, radio);
    DecodedStored(s, code, token, radio);
    hide Block, Header, Command, RequestsInv;
  }

  lemma CompleteStores(s: State, id: nat, e: Errno)
    ensures var t := Complete(s, id, e);
            t.voiceTech == s.voiceTech && t.subscription == s.subscription && t.simStatus == s.simStatus
  {
    hide Dequeue, Find;
  }

  lemma DecodedStored(s: State, code: int, token: int, radio: Radio)
    requires code in {VOICE_RADIO_TECH, CDMA_GET_SUBSCRIPTION_SOURCE}
    ensures var t := Command(s, code, token, radio);
            && t.voiceTech == (if code == VOICE_RADIO_TECH && !radio.On? then DecodeVoiceTech(radio) else s.voiceTech)
            && t.subscription == (if code == CDMA_GET_SUBSCRIPTION_SOURCE && !radio.On? then DecodeSubscription(radio)
                                  else s.subscription)
            && t.simStatus == s.simStatus
  {
    hide Complete, DecodeVoiceTech, DecodeSubscription;
    var q := Enqueue(s, token, code, false);
    CompleteStores(q, s.nextId, RadioNotAvailable);
    var a := if radio.Off? || radio.Unavailable? then Complete(q, s.nextId, RadioNotAvailable) else q;
    CompleteStores(a, s.nextId, Success);
    CompleteStores(a, s.nextId, GenericFailure);
  }

  /** A request of the daemon's own is pending in front of the others, local, and nothing is written. */
  lemma LocalQueued(s: State, code: int)
    ensures var t := IssueLocal(s, code);
            t.wire == s.wire && t.pending == [Request(s.nextId, 0xffff_ffff, code, true, false, s.conn)] + s.pending
  {
  }

  // ---- the radio state ----

  /** The eight states of older libraries in their numeric order, from 2 to 9; 0 and 1 are off and unavailable,
      10 is on. */
  function StateNumber(r: Radio): nat {
    match r
    case Off => 0
    case Unavailable => 1
    case SimNotReady => 2
    case SimLockedOrAbsent => 3
    case SimReady => 4
    case RuimNotReady => 5
    case RuimReady => 6
    case RuimLockedOrAbsent => 7
    case NvNotReady => 8
    case NvReady => 9
    case On => 10
  }

  /** What a state of an older library says: SIM states mean UMTS, RUIM and NV states 1xRTT; NV states mean a
      subscription in NV, the others one on a card; and only a card that is ready, locked or absent has a
      status. The three new states say nothing of this. */
  lemma DecodedAs(r: Radio)
    ensures OldRadio(r) <==> 1 < StateNumber(r) < 10
    ensures DecodeVoiceTech(r) == if StateNumber(r) in {2, 3, 4} then Some(Umts)
                                  else if StateNumber(r) in {5, 6, 7, 8, 9} then Some(OneXrtt) else None
    ensures DecodeSubscription(r) == if 2 <= StateNumber(r) <= 7 then Some(RuimSim)
                                     else if StateNumber(r) in {8, 9} then Some(Nv) else None
    ensures DecodeSimStatus(r) == if StateNumber(r) in {3, 4, 6, 7} then Some(r) else None
  {
  }

  /** The state that is reported. */
  function Reported(r: Radio): Radio { if r.Off? || r.Unavailable? then r else On }

  function IfThen(b: bool, code: int, conn: nat): seq<Sent> { if b then [Sent(conn, Unsol(code))] else [] }

  /** What is announced before it: each decoded value that has changed, the technology first, then with a
      3GPP2 technology the subscription source, then the card status. */
  function Announcements(s: State, r: Radio): seq<Sent> {
    if !(1 < StateNumber(r) < 10) then []
    else IfThen(DecodeVoiceTech(r) != s.voiceTech, 1035, s.conn)
         + IfThen(StateNumber(r) >= 5 && DecodeSubscription(r) != s.subscription, 1031, s.conn)
         + IfThen(DecodeSimStatus(r) != s.simStatus, 1019, s.conn)
  }

  /** What is stored of it. */
  function Remembered(s: State, r: Radio): (Option<VoiceTech>, Option<Subscription>, Option<Radio>) {
    if !(1 < StateNumber(r) < 10) then (s.voiceTech, s.subscription, s.simStatus)
    else (DecodeVoiceTech(r), if StateNumber(r) >= 5 then DecodeSubscription(r) else s.subscription, DecodeSimStatus(r))
  }

  /** From `s` to `t` exactly `sent` was written, if there is a client. */
  ghost predicate Wrote(s: State, t: State, sent: seq<Sent>) {
    t.conn == s.conn && t.fdCommand == s.fdCommand && t.wire == s.wire + if s.fdCommand < 0 then [] else sent
  }

  lemma AnnounceWrites(s: State, t: State, sent: seq<Sent>, changed: bool, stored: State, code: int, now: int)
    requires Wrote(s, t, sent)
    requires stored == t.(voiceTech := stored.voiceTech, subscription := stored.subscription, simStatus := stored.simStatus)
    ensures var u := Announce(t, changed, stored, code, now);
            && Wrote(s, u, sent + IfThen(changed, code, s.conn))
            && (u.voiceTech, u.subscription, u.simStatus)
               == if changed then (stored.voiceTech, stored.subscription, stored.simStatus) else (t.voiceTech, t.subscription, t.simStatus)
  {
    assert sent + [] == sent;
    assert t.wire + [Sent(s.conn, Unsol(code))] == if s.fdCommand < 0 then t.wire + [Sent(s.conn, Unsol(code))]
                                                   else s.wire + (sent + [Sent(s.conn, Unsol(code))]);
  }

  lemma OldStateWrites(s: State, r: Radio, now: int)
    requires OldRadio(r)
    ensures var t, tech, source, sim := ProcessRadioState(s, r, now), DecodeVoiceTech(r), DecodeSubscription(r), DecodeSimStatus(r);
            && Wrote(s, t.0, IfThen(tech != s.voiceTech, 1035, s.conn)
                             + IfThen(Is3gpp2(tech) && source != s.subscription, 1031, s.conn)
                             + IfThen(sim != s.simStatus, 1019, s.conn))
            && (t.0.voiceTech, t.0.subscription, t.0.simStatus) == (tech, if Is3gpp2(tech) then source else s.subscription, sim)
            && t.1 == On
  {
    var tech, source, sim := DecodeVoiceTech(r), DecodeSubscription(r), DecodeSimStatus(r);
    NothingWritten(s);
    hide DecodeVoiceTech, DecodeSubscription, DecodeSimStatus, IfThen, Is3gpp2, OldRadio, Announce, Wrote;
    var x := IfThen(tech != s.voiceTech, VOICE_RADIO_TECH_CHANGED, s.conn);
    AnnounceWrites(s, s, [], tech != s.voiceTech, s.(voiceTech := tech), VOICE_RADIO_TECH_CHANGED, now);
    var a := Announce(s, tech != s.voiceTech, s.(voiceTech := tech), VOICE_RADIO_TECH_CHANGED, now);
    assert [] + x == x;
    var told := Is3gpp2(tech) && source != a.subscription;
    AnnounceWrites(s, a, x, told, a.(subscription := source), SUBSCRIPTION_SOURCE_CHANGED, now);
    var b := Announce(a, told, a.(subscription := source), SUBSCRIPTION_SOURCE_CHANGED, now);
    AnnounceWrites(s, b, x + IfThen(told, SUBSCRIPTION_SOURCE_CHANGED, s.conn), sim != b.simStatus, b.(simStatus := sim),
                   SIM_STATUS_CHANGED, now);
  }

  lemma ProcessWrites(s: State, r: Radio, now: int)
    ensures var t := ProcessRadioState(s, r, now);
            && Wrote(s, t.0, Announcements(s, r))
            && (t.0.voiceTech, t.0.subscription, t.0.simStatus) == Remembered(s, r)
            && t.1 == Reported(r)
  {
    DecodedAs(r);
    NothingWritten(s);
    if OldRadio(r) {
      OldStateWrites(s, r, now);
      hide ProcessRadioState, Wrote;
    } else {
      hide Wrote;
    }
  }

  lemma NothingWritten(s: State)
    ensures Wrote(s, s, [])
  {
  }

  /** The radio state as a client is told it: off and unavailable as they are and every other state as on, last
      of all; before that what has changed of the decoded values. For off, unavailable and on nothing else is
      written and no decoded value changes. */
  lemma RadioStateWrites(s: State, r: Radio, now: int)
    ensures var t := Unsolicited(s, RADIO_STATE_CHANGED, true, r, now);
            && t.wire == s.wire + (if s.fdCommand < 0 then [] else Announcements(s, r) + [Sent(s.conn, RadioState(Reported(r)))])
            && (t.voiceTech, t.subscription, t.simStatus) == Remembered(s, r)
            && (s.fdCommand >= 0 ==>
                  t.wire[|t.wire| - 1]
                  == Sent(s.conn, RadioState(match r case Off => Off case Unavailable => Unavailable case _ => On)))
            && (r.Off? || r.Unavailable? || r.On? ==>
                  && t.wire == s.wire + (if s.fdCommand < 0 then [] else [Sent(s.conn, RadioState(r))])
                  && t.voiceTech == s.voiceTech && t.subscription == s.subscription && t.simStatus == s.simStatus)
  {
    ProcessWrites(s.(held := true), r, now);
    hide ProcessRadioState, Announcements, Remembered;
    ThreeStates(s, r);
    SameAnnouncements(s, s.(held := true), r);
    RadioNotified(s, r, now);
  }

  lemma ThreeStates(s: State, r: Radio)
    ensures Announcements(s, r) == [] || !(r.Off? || r.Unavailable? || r.On?)
    ensures Remembered(s, r) == (s.voiceTech, s.subscription, s.simStatus) || !(r.Off? || r.Unavailable? || r.On?)
  {
  }

  lemma SameAnnouncements(s: State, t: State, r: Radio)
    requires t.conn == s.conn && t.voiceTech == s.voiceTech && t.subscription == s.subscription && t.simStatus == s.simStatus
    ensures Announcements(t, r) == Announcements(s, r) && Remembered(t, r) == Remembered(s, r)
  {
  }

  lemma RadioNotified(s: State, r: Radio, now: int)
    ensures var t, p := Unsolicited(s, RADIO_STATE_CHANGED, true, r, now), ProcessRadioState(s.(held := true), r, now);
            && t.wire == p.0.wire + (if p.0.fdCommand < 0 then [] else [Sent(p.0.conn, RadioState(p.1))])
            && t.voiceTech == p.0.voiceTech && t.subscription == p.0.subscription && t.simStatus == p.0.simStatus
  {
    hide ProcessRadioState;
  }

  // ---- other notifications ----

  /** What one notification writes: nothing with bad data, with a code out of range or without a client, the
      radio state as above, a NITZ message with its number, and every other notification under its own code.
      A NITZ message that cannot be written is kept. */
  lemma NotificationWrites(s: State, code: int, ok: bool, radio: Radio, now: int)
    ensures var t := Unsolicited(s, code, ok, radio, now);
            && t.wire == s.wire + (if s.fdCommand < 0 || !ok || !(1000 <= code <= 1040) then []
                                   else if code == 1000 then Announcements(s, radio) + [Sent(s.conn, RadioState(Reported(radio)))]
                                   else if code == 1008 then [Sent(s.conn, Nitz(s.nextNitz))]
                                   else [Sent(s.conn, Unsol(code))])
            && t.lastNitz == (if code == 1008 && ok && s.fdCommand < 0 then Some(Nitz(s.nextNitz)) else s.lastNitz)
            && t.nextNitz == (if code == 1008 && ok then s.nextNitz + 1 else s.nextNitz)
            && (code != 1000 || !ok ==>
                  t.voiceTech == s.voiceTech && t.subscription == s.subscription && t.simStatus == s.simStatus)
  {
    hide ProcessRadioState, Announcements;
    if code == 1000 && ok {
      RadioStateWrites(s, radio, now);
      UnsolicitedKeeps(s, code, ok, radio, now);
      hide Unsolicited;
    }
  }

  /** Of the 41 notifications all but two hold the lock. */
  lemma HoldsLock(code: int)
    ensures Wants(code) <==> 1000 <= code <= 1040 && code !in {1007, 1009}
  {
  }

  /** What a client is greeted with: that the daemon is there, the radio state, and the NITZ message it missed. */
  lemma GreetingIs(s: State, radio: Radio, now: int)
    requires s.fdCommand >= 0
    ensures Greet(s, radio, now).wire
         == s.wire + [Sent(s.conn, Unsol(1034))] + Announcements(s, radio) + [Sent(s.conn, RadioState(Reported(radio)))]
            + (if s.lastNitz.Some? then [Sent(s.conn, s.lastNitz.value)] else [])
  {
    hide Unsolicited, Announcements;
    var a := Unsolicited(s, RIL_CONNECTED, true, radio, now);
    var b := Unsolicited(a, RADIO_STATE_CHANGED, true, radio, now);
    NotificationWrites(s, RIL_CONNECTED, true, radio, now);
    UnsolicitedKeeps(s, RIL_CONNECTED, true, radio, now);
    NotificationWrites(a, RADIO_STATE_CHANGED, true, radio, now);
    UnsolicitedKeeps(a, RADIO_STATE_CHANGED, true, radio, now);
    SameAnnouncements(s, a, radio);
  }

  // ---- connections, pending requests and timers after a step ----

  function FdAfter(s: State, step: Step): int {
    match step
    case ClientConnects(Phone(fd), _, _) => fd
    case ClientConnects(_, _, _) => -1
    case ClientGone => -1
    case _ => s.fdCommand
  }

  predicate Opens(step: Step) { step.ClientConnects? && step.accepted.Phone? }

  predicate Closes(step: Step) { step.ClientGone? || (step.ClientConnects? && step.accepted.NotPhone?) }

  /** Only an accepted phone process opens a connection, a new one; only a failed or foreign connect and the
      end of the stream leave none. Between the two, when the listen event has been taken from the table, the
      daemon is accepting. */
  lemma ConnectionAfter(s: State, step: Step)
    requires Inv(s) && Enabled(s, step)
    ensures var t := Next(s, step);
            && t.fdCommand == FdAfter(s, step)
            && t.conn == s.conn + (if Opens(step) then 1 else 0)
            && t.accepting == (step.ClientWaits? || (s.accepting && !step.ClientConnects?))
  {
    hide WatchInv, RequestsInv, WakeInv, NitzInv, Received, Complete, Unsolicited, Watched, AddWatch, DeleteWatch, CancelAll, Greet,
      Enqueue;
    WatchMeans(s);
    match step
    case ClientConnects(accepted, radio, now) =>
      if accepted.Phone? { GreetQuiet(Opened(s, accepted.fd), radio, now); }
    case ClientCommand(block, radio) => ReceivedKeepsRequests(s, block, radio);
    case LibraryCompletes(id, error) => CompleteKeeps(s, id, error);
    case LibraryNotifies(code, ok, radio, now) => UnsolicitedKeeps(s, code, ok, radio, now);
    case LocalRequest(code) => LocalOnly(s, code);
    case _ =>
  }

  lemma LocalOnly(s: State, code: int)
    ensures var t := IssueLocal(s, code); t == s.(pending := t.pending, nextId := t.nextId, origin := t.origin)
  {
  }

  lemma GreetQuiet(s: State, radio: Radio, now: int)
    ensures var t := Greet(s, radio, now);
            t.fdCommand == s.fdCommand && t.conn == s.conn && t.accepting == s.accepting && t.pending == s.pending
  {
    hide Unsolicited;
    UnsolicitedKeeps(s, RIL_CONNECTED, true, radio, now);
    UnsolicitedKeeps(Unsolicited(s, RIL_CONNECTED, true, radio, now), RADIO_STATE_CHANGED, true, radio, now);
  }

  /** A step that leaves no client marks every pending request cancelled, and moves none; only a request block,
      a completion and a local request change the list otherwise. */
  lemma PendingAfter(s: State, step: Step)
    requires !step.ClientCommand? && !step.LibraryCompletes? && !step.LocalRequest? && Enabled(s, step)
    ensures var t := Next(s, step);
            && |t.pending| == |s.pending|
            && forall i :: 0 <= i < |s.pending| ==>
                 t.pending[i] == if Closes(step) then s.pending[i].(cancelled := true) else s.pending[i]
  {
    hide Unsolicited, Watched, AddWatch, DeleteWatch, Greet;
    match step
    case ClientConnects(accepted, radio, now) =>
      if accepted.Phone? { GreetQuiet(Opened(s, accepted.fd), radio, now); }
    case LibraryNotifies(code, ok, radio, now) => UnsolicitedKeeps(s, code, ok, radio, now);
    case _ =>
  }

  /** Every timer of `s` is one of `t`, of the same kind and with the same deadline. */
  ghost predicate TimersStay(s: State, t: State) {
    forall id :: id in s.timers ==>
      id in t.timers && t.timers[id].deadline == s.timers[id].deadline && (t.timers[id].User? <==> s.timers[id].User?)
  }

  lemma StayTrans(s: State, t: State, u: State)
    requires TimersStay(s, t) && TimersStay(t, u)
    ensures TimersStay(s, u)
  {
  }

  lemma ScheduleStays(s: State, now: int)
    requires TimersInv(s)
    ensures TimersInv(ScheduleWake(s, now)) && TimersStay(s, ScheduleWake(s, now))
  {
  }

  /** `t` has the timers of `s`. */
  ghost predicate SameTimers(s: State, t: State) {
    t.timers == s.timers && t.nextTimer == s.nextTimer && t.lastWake == s.lastWake && t.lastWakeAt == s.lastWakeAt
  }

  lemma SameStays(s: State, t: State, u: State)
    requires SameTimers(s, t)
    ensures TimersInv(s) ==> TimersInv(t)
    ensures TimersStay(s, t) && (TimersStay(t, u) ==> TimersStay(s, u))
  {
  }

  lemma NotifyStays(s: State, code: int, p: Packet, now: int)
    requires TimersInv(s)
    ensures TimersInv(Notify(s, code, p, now)) && TimersStay(s, Notify(s, code, p, now))
  {
    hide TimersInv, TimersStay, ScheduleWake;
    var t := Send(if WakesPartially(code) then s.(held := true) else s, p);
    SameStays(s, t, ScheduleWake(t, now));
    ScheduleStays(t, now);
  }

  lemma AnnounceStays(s: State, changed: bool, stored: State, code: int, now: int)
    requires TimersInv(s)
    requires stored == s.(voiceTech := stored.voiceTech, subscription := stored.subscription, simStatus := stored.simStatus)
    ensures TimersInv(Announce(s, changed, stored, code, now)) && TimersStay(s, Announce(s, changed, stored, code, now))
  {
    NotifyStays(stored, code, Unsol(code), now);
    hide Notify;
  }

  lemma ProcessStays(s: State, r: Radio, now: int)
    requires TimersInv(s)
    ensures var t := ProcessRadioState(s, r, now).0; TimersInv(t) && TimersStay(s, t)
  {
    if OldRadio(r) {
      var tech, source, sim := DecodeVoiceTech(r), DecodeSubscription(r), DecodeSimStatus(r);
      hide Announce, TimersInv, TimersStay, DecodeVoiceTech, DecodeSubscription, DecodeSimStatus, Is3gpp2, OldRadio;
      AnnounceStays(s, tech != s.voiceTech, s.(voiceTech := tech), VOICE_RADIO_TECH_CHANGED, now);
      var a := Announce(s, tech != s.voiceTech, s.(voiceTech := tech), VOICE_RADIO_TECH_CHANGED, now);
      var told := Is3gpp2(tech) && source != a.subscription;
      AnnounceStays(a, told, a.(subscription := source), SUBSCRIPTION_SOURCE_CHANGED, now);
      var b := Announce(a, told, a.(subscription := source), SUBSCRIPTION_SOURCE_CHANGED, now);
      AnnounceStays(b, sim != b.simStatus, b.(simStatus := sim), SIM_STATUS_CHANGED, now);
      StayTrans(s, a, b);
      StayTrans(s, b, Announce(b, sim != b.simStatus, b.(simStatus := sim), SIM_STATUS_CHANGED, now));
    } else {
      SameStays(s, s, s);
      hide TimersInv, TimersStay;
    }
  }

  lemma RadioStays(s: State, radio: Radio, now: int)
    requires TimersInv(s)
    ensures var t := Unsolicited(s, RADIO_STATE_CHANGED, true, radio, now); TimersInv(t) && TimersStay(s, t)
  {
    hide Notify, ProcessRadioState, TimersInv, TimersStay;
    var taken := s.(held := true);
    SameStays(s, taken, s);
    var p := ProcessRadioState(taken, radio, now);
    ProcessStays(taken, radio, now);
    NotifyStays(p.0, RADIO_STATE_CHANGED, RadioState(p.1), now);
    var t := Notify(p.0, RADIO_STATE_CHANGED, RadioState(p.1), now);
    StayTrans(taken, p.0, t);
    SameStays(s, taken, t);
  }

  lemma UnsolicitedStays(s: State, code: int, ok: bool, radio: Radio, now: int)
    requires TimersInv(s)
    ensures var t := Unsolicited(s, code, ok, radio, now); TimersInv(t) && TimersStay(s, t)
  {
    hide Notify, ProcessRadioState, TimersInv, TimersStay;
    var t := Unsolicited(s, code, ok, radio, now);
    if code == RADIO_STATE_CHANGED && ok {
      RadioStays(s, radio, now);
    } else if code == NITZ_TIME_RECEIVED && ok {
      var n := s.(nextNitz := s.nextNitz + 1);
      SameStays(s, n, s);
      NotifyStays(n, code, Nitz(s.nextNitz), now);
      var u := Notify(n, code, Nitz(s.nextNitz), now);
      SameStays(s, n, u);
      SameStays(u, t, t);
      StayTrans(s, u, t);
    } else if UNSOL_BASE <= code < UNSOL_BASE + NUM_UNSOL && ok {
      NotifyStays(s, code, Unsol(code), now);
    } else {
      SameStays(s, t, t);
    }
  }

  lemma GreetStays(s: State, radio: Radio, now: int)
    requires TimersInv(s)
    ensures TimersStay(s, Greet(s, radio, now))
  {
    hide Unsolicited;
    UnsolicitedStays(s, RIL_CONNECTED, true, radio, now);
    UnsolicitedStays(Unsolicited(s, RIL_CONNECTED, true, radio, now), RADIO_STATE_CHANGED, true, radio, now);
  }

  /** A timer keeps its kind and its deadline until it goes off, and then it is gone; one that is asked for
      waits for the deadline it is asked for. */
  lemma TimersAfter(s: State, step: Step)
    requires Inv(s) && Enabled(s, step)
    ensures var t := Next(s, step);
            && (!step.TimerGoesOff? ==> TimersStay(s, t))
            && (step.TimerGoesOff? ==> step.id !in t.timers && t.timers == s.timers - {step.id})
            && (step.UserTimer? ==> t.timers == s.timers[s.nextTimer := User(step.deadline)] && s.nextTimer !in s.timers)
  {
    hide WatchInv, RequestsInv, NitzInv, Received, Complete, Unsolicited, Watched, AddWatch, DeleteWatch, CancelAll, Greet, Enqueue;
    WatchMeans(s);
    match step
    case ClientConnects(accepted, radio, now) =>
      if accepted.Phone? { GreetStays(Opened(s, accepted.fd), radio, now); }
    case ClientCommand(block, radio) => ReceivedKeepsRequests(s, block, radio);
    case LibraryCompletes(id, error) => CompleteKeeps(s, id, error);
    case LibraryNotifies(code, ok, radio, now) => UnsolicitedStays(s, code, ok, radio, now);
    case LocalRequest(code) => LocalOnly(s, code);
    case _ =>
  }
}
