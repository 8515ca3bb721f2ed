/** The RIL daemon as a system of atomic steps: every callback of the event loop and every call of
    the vendor library is one step. Requests, wake timers and NITZ messages carry a fresh number, so
    none is mistaken for an earlier one. */
module RilProtocol {
  import opened Wrappers
  import opened EventSpec
  import opened Bytes
  import CdmaParcel

  // ---- requests, packets and what the daemon remembers ----

  const NUM_COMMANDS := 122
  const CDMA_GET_SUBSCRIPTION_SOURCE := 104
  const VOICE_RADIO_TECH := 108

  const UNSOL_BASE := 1000
  const NUM_UNSOL := 41
  const RADIO_STATE_CHANGED := 1000
  const ON_USSD_REQUEST := 1007
  const NITZ_TIME_RECEIVED := 1008
  const SIGNAL_STRENGTH := 1009
  const SIM_STATUS_CHANGED := 1019
  const SUBSCRIPTION_SOURCE_CHANGED := 1031
  const RIL_CONNECTED := 1034
  const VOICE_RADIO_TECH_CHANGED := 1035

  /** One second, in microseconds. */
  const WAKE_TIMEOUT: int := 1_000_000

  /** `conn` numbers the connection the request was read on; a local request was read on none. */
  datatype Request = Request(id: nat, token: int, code: int, local: bool, cancelled: bool, conn: nat)

  datatype Errno = Success | RadioNotAvailable | GenericFailure | Other(n: int)

  datatype Packet =
    | Response(request: nat, token: int, error: Errno)
    | Unsupported(token: int)
    | Unsol(code: int)
    | RadioState(state: Radio)
    | Nitz(number: nat)

  /** A packet written on connection `conn`. */
  datatype Sent = Sent(conn: nat, packet: Packet)

  /** A timer waiting for its deadline; `cancelled` is the `userParam != NULL` of a wake timer. */
  datatype Timer = Wake(cancelled: bool, deadline: int) | User(deadline: int)

  datatype Radio =
    | Off | Unavailable
    | SimNotReady | SimLockedOrAbsent | SimReady
    | RuimNotReady | RuimReady | RuimLockedOrAbsent
    | NvNotReady | NvReady
    | On

  datatype Event = WakeupPipe | DebugSocket | ListenSocket | CommandSocket

  /** What one boot of the daemon is given: its descriptors. */
  datatype Boot = Boot(wakeupFd: int, listenFd: int, debugFd: int)

  /** `accepting` says that the one-shot listen event has been taken from the watch table and its callback is
      still to come; `conn` numbers the connections. */
  datatype State = State(
    boot: Boot,
    fds: Fds<Event>,
    fdCommand: int,
    accepting: bool,
    conn: nat,
    pending: seq<Request>,
    nextId: nat,
    wire: seq<Sent>,
    lastNitz: Option<Packet>,
    nextNitz: nat,
    held: bool,
    lastWake: Option<nat>,
    lastWakeAt: int,
    timers: map<nat, Timer>,
    nextTimer: nat,
    voiceTech: Option<VoiceTech>,
    subscription: Option<Subscription>,
    simStatus: Option<Radio>,
    origin: map<nat, Request>
  )

  // ---- decoding the radio state of older libraries; None is their -1 ----

  datatype VoiceTech = Umts | OneXrtt
  datatype Subscription = RuimSim | Nv

  function DecodeVoiceTech(r: Radio): Option<VoiceTech> {
    match r
    case SimNotReady | SimLockedOrAbsent | SimReady => Some(Umts)
    case RuimNotReady | RuimReady | RuimLockedOrAbsent | NvNotReady | NvReady => Some(OneXrtt)
    case Off | Unavailable | On => None
  }

  function DecodeSubscription(r: Radio): Option<Subscription> {
    match r
    case SimNotReady | SimLockedOrAbsent | SimReady | RuimNotReady | RuimReady | RuimLockedOrAbsent => Some(RuimSim)
    case NvNotReady | NvReady => Some(Nv)
    case Off | Unavailable | On => None
  }

  function DecodeSimStatus(r: Radio): Option<Radio> {
    match r
    case SimLockedOrAbsent | SimReady | RuimReady | RuimLockedOrAbsent => Some(r)
    case _ => None
  }

  function Is3gpp2(t: Option<VoiceTech>): bool { t == Some(OneXrtt) }

  /** Strictly between `RADIO_STATE_UNAVAILABLE` and `RADIO_STATE_ON`. */
  function OldRadio(r: Radio): bool { !(r.Off? || r.Unavailable? || r.On?) }

  // ---- sending ----

  /** `sendResponse`: written when a client is connected. Writes on an open connection succeed. */
  function Send(s: State, p: Packet): State {
    if s.fdCommand < 0 then s else s.(wire := s.wire + [Sent(s.conn, p)])
  }

  // ---- requests ----

  function Find(pending: seq<Request>, id: nat): (i: nat)
    ensures i <= |pending|
    ensures i < |pending| ==> pending[i].id == id
    ensures forall j :: 0 <= j < i ==> pending[j].id != id
  {
    if pending == [] || pending[0].id == id then 0 else 1 + Find(pending[1..], id)
  }

  function Dequeue(pending: seq<Request>, id: nat): seq<Request> {
    var i := Find(pending, id);
    if i < |pending| then pending[..i] + pending[i + 1..] else pending
  }

  function CancelAll(pending: seq<Request>): (r: seq<Request>)
    ensures |r| == |pending|
    ensures forall i :: 0 <= i < |r| ==> r[i] == pending[i].(cancelled := true)
  {
    seq(|pending|, i requires 0 <= i < |pending| => pending[i].(cancelled := true))
  }

  /** `RIL_onRequestComplete`: a token that is not pending is refused; a local or cancelled request
      is dequeued in silence. */
  function Complete(s: State, id: nat, e: Errno): State {
    var i := Find(s.pending, id);
    if i == |s.pending| then s
    else
      var r := s.pending[i];
      var t := s.(pending := Dequeue(s.pending, id));
      if r.local || r.cancelled then t else Send(t, Response(id, r.token, e))
  }

  function Enqueue(s: State, token: int, code: int, local: bool): State {
    var r := Request(s.nextId, token, code, local, false, s.conn);
    s.(pending := [r] + s.pending, nextId := s.nextId + 1, origin := s.origin[s.nextId := r])
  }

  /** `issueLocalRequest`. */
  function IssueLocal(s: State, code: int): State { Enqueue(s, 0xffff_ffff, code, true) }

  /** `dispatchVoiceRadioTech` and `dispatchCdmaSubscriptionSource`, for the request just queued. With
      the radio on the library is asked; otherwise the request is completed here, when the radio is
      off or unavailable twice. */
  function DispatchDecoded(s: State, id: nat, radio: Radio, decoded: bool): State {
    var t := if radio.Off? || radio.Unavailable? then Complete(s, id, RadioNotAvailable) else s;
    if radio.On? then t
    else Complete(t, id, if decoded then Success else GenericFailure)
  }

  /** `dispatchVoiceRadioTech`. */
  function AskVoiceTech(s: State, id: nat, radio: Radio): State {
    var t := DispatchDecoded(s, id, radio, DecodeVoiceTech(radio).Some?);
    if radio.On? then t else t.(voiceTech := DecodeVoiceTech(radio))
  }

  /** `dispatchCdmaSubscriptionSource`. */
  function AskSubscription(s: State, id: nat, radio: Radio): State {
    var t := DispatchDecoded(s, id, radio, DecodeSubscription(radio).Some?);
    if radio.On? then t else t.(subscription := DecodeSubscription(radio))
  }

  /** `processCommandBuffer` behind the header. `radio` is what the library answers
      when it is asked for the radio state. Other requests go to the library and stay pending, also
      when their block turns out to be malformed. */
  function Command(s: State, code: int, token: int, radio: Radio): State {
    if code < 1 || code >= NUM_COMMANDS then Send(s, Unsupported(token))
    else
      var t := Enqueue(s, token, code, false);
      if code == VOICE_RADIO_TECH then AskVoiceTech(t, s.nextId, radio)
      else if code == CDMA_GET_SUBSCRIPTION_SOURCE then AskSubscription(t, s.nextId, radio)
      else t
  }

  /** The request code and the token at the front of a block; a parcel holds integers in four bytes, the
      lowest first. */
  function Header(block: seq<byte>): Option<(int, int)> {
    if |block| < 8 then None else Some((CdmaParcel.WordInt(block[..4]), CdmaParcel.WordInt(block[4..8])))
  }

  /** `processCommandBuffer`: a block without a whole header is only logged. */
  function Received(s: State, block: seq<byte>, radio: Radio): State {
    if Header(block).None? then s else Command(s, Header(block).value.0, Header(block).value.1, radio)
  }

  // ---- unsolicited responses and the wake lock ----

  function WakesPartially(code: int): bool { code != ON_USSD_REQUEST && code != SIGNAL_STRENGTH }

  /** Cancel the previous wake timer and start one that goes off in a second. */
  function ScheduleWake(s: State, now: int): State {
    var cancelled := if s.lastWake.Some? && s.lastWake.value in s.timers && s.timers[s.lastWake.value].Wake?
                     then s.timers[s.lastWake.value := s.timers[s.lastWake.value].(cancelled := true)] else s.timers;
    s.(timers := cancelled[s.nextTimer := Wake(false, now + WAKE_TIMEOUT)],
       nextTimer := s.nextTimer + 1, lastWake := Some(s.nextTimer), lastWakeAt := now)
  }

  /** `RIL_onUnsolicitedResponse` around its packet: grab the lock, send, schedule the release. */
  function Notify(s: State, code: int, packet: Packet, now: int): State {
    var t := Send(if WakesPartially(code) then s.(held := true) else s, packet);
    if WakesPartially(code) then ScheduleWake(t, now) else t
  }

  /** `RIL_onUnsolicitedResponse` called from within another: `stored` announced when it has changed. */
  function Announce(s: State, changed: bool, stored: State, code: int, now: int): State {
    if changed then Notify(stored, code, Unsol(code), now) else s
  }

  /** `processRadioState`: an older library's state is decoded, and each decoded value that has changed
      is stored and announced. */
  function ProcessRadioState(s: State, r: Radio, now: int): (State, Radio) {
    if !OldRadio(r) then (s, r)
    else
      var tech, source, sim := DecodeVoiceTech(r), DecodeSubscription(r), DecodeSimStatus(r);
      var a := Announce(s, tech != s.voiceTech, s.(voiceTech := tech), VOICE_RADIO_TECH_CHANGED, now);
      var b := Announce(a, Is3gpp2(tech) && source != a.subscription, a.(subscription := source), SUBSCRIPTION_SOURCE_CHANGED, now);
      var c := Announce(b, sim != b.simStatus, b.(simStatus := sim), SIM_STATUS_CHANGED, now);
      (c, On)
  }

  /** `RIL_onUnsolicitedResponse`, once the library is registered. `ok` says whether the response
      function accepts the data, `radio` is the radio state if it is asked for, `now` the clock. */
  function Unsolicited(s: State, code: int, ok: bool, radio: Radio, now: int): State {
    if code < UNSOL_BASE || code >= UNSOL_BASE + NUM_UNSOL then s
    else if !ok then s.(held := if WakesPartially(code) then false else s.held)
    else if code == RADIO_STATE_CHANGED then
      // the lock is already held while the decoded values are announced
      var t := ProcessRadioState(s.(held := true), radio, now);
      Notify(t.0, code, RadioState(t.1), now)
    else if code == NITZ_TIME_RECEIVED then
      var p := Nitz(s.nextNitz);
      var t := Notify(s.(nextNitz := s.nextNitz + 1), code, p, now);
      if s.fdCommand < 0 then t.(lastNitz := Some(p)) else t
    else Notify(s, code, Unsol(code), now)
  }

  /** `userTimerCallback`, called by the event loop once the clock is past the deadline. */
  function TimerFires(s: State, id: nat): State
    requires id in s.timers
  {
    s.(held := if s.timers[id].Wake? && !s.timers[id].cancelled then false else s.held,
       lastWake := if s.lastWake == Some(id) then None else s.lastWake,
       timers := s.timers - {id})
  }

  // ---- connections ----

  datatype Accepted = Failed | NotPhone | Phone(fd: int)

  /** `onNewCommandConnect`. */
  function Greet(s: State, radio: Radio, now: int): State {
    var a := Unsolicited(s, RIL_CONNECTED, true, radio, now);
    var b := Unsolicited(a, RADIO_STATE_CHANGED, true, radio, now);
    if b.lastNitz.Some? then Send(b, b.lastNitz.value).(lastNitz := None) else b
  }

  /** `processReadReadies` finds the listening socket ready: its one-shot event leaves the watch table, and
      until `listenCallback` runs no socket for a client is watched. */
  function ListenReady(s: State): State {
    s.(fds := DeleteWatch(s.fds, ListenSocket), accepting := true)
  }

  /** `listenCallback`. */
  function Listen(s: State, accepted: Accepted, radio: Radio, now: int): State {
    var t := s.(accepting := false);
    var again := Watch(ListenSocket, s.boot.listenFd, false);
    match accepted
    case Failed => t.(fdCommand := -1, fds := AddWatch(t.fds, again))
    case NotPhone => t.(fdCommand := -1, pending := CancelAll(t.pending), fds := AddWatch(t.fds, again))
    case Phone(fd) =>
      Greet(t.(fdCommand := fd, conn := t.conn + 1, fds := AddWatch(t.fds, Watch(CommandSocket, fd, true))), radio, now)
  }

  /** `processCommandsCallback` when the stream ends or fails. */
  function Disconnect(s: State): State {
    s.(fdCommand := -1,
       fds := AddWatch(DeleteWatch(s.fds, CommandSocket), Watch(ListenSocket, s.boot.listenFd, false)),
       pending := CancelAll(s.pending))
  }

  // ---- steps and runs ----

  datatype Step =
    | ClientWaits
    | ClientConnects(accepted: Accepted, radio: Radio, now: int)
    | ClientCommand(block: seq<byte>, radio: Radio)
    | ClientGone
    | LibraryCompletes(id: nat, error: Errno)
    | LibraryNotifies(code: int, ok: bool, radio: Radio, now: int)
    | LocalRequest(code: int)
    | UserTimer(deadline: int)
    | TimerGoesOff(id: nat, now: int)

  /** When the event loop can make a call: on a watched socket, once the listen event has been queued, or
      past a deadline. An accepted descriptor is none of those in use. Calls of the library can come at any time. */
  ghost predicate Enabled(s: State, step: Step) {
    match step
    case ClientWaits => Watched(s.fds.table, ListenSocket)
    case ClientConnects(accepted, _, _) =>
      && s.accepting
      && (accepted.Phone? ==>
            accepted.fd >= 0 && accepted.fd != s.boot.wakeupFd && accepted.fd != s.boot.listenFd && accepted.fd != s.boot.debugFd)
    case ClientCommand(_, _) => Watched(s.fds.table, CommandSocket)
    case ClientGone => Watched(s.fds.table, CommandSocket)
    case TimerGoesOff(id, now) => id in s.timers && s.timers[id].deadline < now
    case LocalRequest(code) => 1 <= code < NUM_COMMANDS
    case _ => true
  }

  ghost function Next(s: State, step: Step): State
    requires Enabled(s, step)
  {
    match step
    case ClientWaits => ListenReady(s)
    case ClientConnects(accepted, radio, now) => Listen(s, accepted, radio, now)
    case ClientCommand(block, radio) => Received(s, block, radio)
    case ClientGone => Disconnect(s)
    case LibraryCompletes(id, error) => Complete(s, id, error)
    case LibraryNotifies(code, ok, radio, now) => Unsolicited(s, code, ok, radio, now)
    case LocalRequest(code) => IssueLocal(s, code)
    case UserTimer(deadline) => s.(timers := s.timers[s.nextTimer := User(deadline)], nextTimer := s.nextTimer + 1)
    case TimerGoesOff(id, _) => TimerFires(s, id)
  }

  /** After `ril_event_init`. */
  function NoneWatched(): Fds<Event> { Fds(seq(MAX_FD_EVENTS, _ => None), {}, 0) }

  /** The state after `RIL_register`: three descriptors watched, no client. */
  function Start(b: Boot): State {
    var fds := AddWatch(AddWatch(AddWatch(NoneWatched(), Watch(WakeupPipe, b.wakeupFd, true)),
                                 Watch(ListenSocket, b.listenFd, false)),
                        Watch(DebugSocket, b.debugFd, true));
    State(b, fds, -1, false, 0, [], 0, [], None, 0, false, None, 0, map[], 0, None, None, None, map[])
  }

  ghost predicate GoodBoot(b: Boot) {
    b.wakeupFd >= 0 && b.listenFd >= 0 && b.debugFd >= 0
    && b.wakeupFd != b.listenFd && b.wakeupFd != b.debugFd && b.listenFd != b.debugFd
  }

  /** A run is the list of its states, each the result of an enabled step on the one before. */
  ghost predicate IsRun(b: Boot, run: seq<State>, steps: seq<Step>) {
    && GoodBoot(b) && |run| == |steps| + 1 && run[0] == Start(b)
    && forall i :: 0 <= i < |steps| ==> Enabled(run[i], steps[i]) && run[i + 1] == Next(run[i], steps[i])
  }
}
