/** The whole plugin as a state machine: any number of paths, the arbiter, the GI supervisor. Every
    event is one atomic step, as under the two locks the code takes. */
module HnzSystem {
  import opened HnzTypes
  import opened GiLog
  import opened Link
  import Commands
  import GiResult
  import Messages

  datatype Schedule = Schedule(active: bool, hour: nat, min: nat)

  datatype SysConf = SysConf(
    paths: seq<PathConf>,
    repeatTimeout: nat,
    giRepeatMax: int,
    giTimeMax: nat,
    schedule: Schedule,
    tsAddresses: seq<nat>,        // configured TS, in the order of the configuration map
    lastTsAddress: nat,
    triggers: map<nat, int>)      // TS that start a GI, with the value that does

  /** The fields of HNZ that the connection touches. `invalidated` holds the TS addresses last sent as
      invalid at the end of a GI. */
  datatype Fledge = Fledge(
    connStatus: ConnectionStatus,
    giStatus: GiStatus,
    giInQueue: bool,
    giReceived: seq<nat>,
    invalidated: seq<nat>,
    daySection: Byte)

  datatype GiSchedule = GiSchedule(day: int, time: int, alreadySent: bool)

  /** `giLog` is history, which nothing in the code reads. `crashed` marks a dereferenced null pointer: the program is over. */
  datatype Sys = Sys(
    paths: seq<PathState>,
    active: Option<nat>,
    first: Option<nat>,
    running: bool,
    sendInit: bool,
    giRepeat: int,
    giLog: seq<GiMark>,
    giStart: int,
    sched: GiSchedule,
    fledge: Fledge,
    crashed: bool)

  predicate ActiveInRange(s: Sys) {
    s.active.Some? ==> s.active.value < |s.paths|
  }

  predicate WellSized(cfg: SysConf, s: Sys) {
    |s.paths| == |cfg.paths| && ActiveInRange(s)
  }

  function SetPath(s: Sys, i: nat, p: PathState): Sys
    requires i < |s.paths|
  {
    s.(paths := s.paths[i := p])
  }

  // ---------------------------------------------------------------- arbiter

  function UpdateConnectionStatus(s: Sys, status: ConnectionStatus): Sys {
    s.(fledge := s.fledge.(connStatus := status), sendInit := s.sendInit || status == NotConnected)
  }

  /** First path from position j on, other than i, that is PASSIVE. */
  function FirstPassive(ps: seq<PathState>, i: nat, j: nat): (r: Option<nat>)
    requires j <= |ps|
    ensures r.Some? ==> j <= r.value < |ps| && r.value != i && ps[r.value].conn == Passive
                        && forall k | j <= k < r.value && k != i :: ps[k].conn != Passive
    ensures r.None? ==> forall k | j <= k < |ps| && k != i :: ps[k].conn != Passive
    decreases |ps| - j
  {
    if j == |ps| then None
    else if j != i && ps[j].conn == Passive then Some(j)
    else FirstPassive(ps, i, j + 1)
  }

  function SetConnectionState(s: Sys, i: nat, state: ConnectionState): Sys
    requires i < |s.paths|
  {
    SetPath(s, i, s.paths[i].(conn := state))
  }

  /** tryActivateOtherPath, and the status when it finds none. */
  function TryActivateOther(s: Sys, i: nat): (r: Sys)
    ensures |r.paths| == |s.paths| && (ActiveInRange(s) ==> ActiveInRange(r))
  {
    var other := if s.running then FirstPassive(s.paths, i, 0) else None;
    if other.Some? then
      UpdateConnectionStatus(SetConnectionState(s.(active := other), other.value, Active), Started)
    else UpdateConnectionStatus(s, NotConnected)
  }

  function LoseActive(s: Sys): Sys {
    s.(active := None, giRepeat := 0, giLog := s.giLog + [ActivePathLost])
  }

  function NoteInput(s: Sys, i: nat): Option<nat>
    requires i < |s.paths|
  {
    var proto := s.paths[i].proto;
    if s.first == None && (proto == InputConnected || proto == Connected) then Some(i)
    else if s.first == Some(i) && (proto == Connection || proto == OutputConnected) then None
    else s.first
  }

  function Request(s: Sys, i: nat, wanted: ConnectionState): (r: Sys)
    requires i < |s.paths|
    ensures |r.paths| == |s.paths| && (ActiveInRange(s) ==> ActiveInRange(r))
  {
    var s1 := s.(first := NoteInput(s, i));
    if wanted == Active then
      if s1.active == None then
        UpdateConnectionStatus(SetConnectionState(s1.(active := Some(i)), i, Active), Started)
      else SetConnectionState(s1, i, Passive)
    else
      var s2 := SetConnectionState(s1, i, wanted);
      if s.active == Some(i) then TryActivateOther(LoseActive(s2), i) else s2
  }

  predicate CanExtract(s: Sys, i: nat) {
    s.active == Some(i) || (s.first == Some(i) && s.active == None)
  }

  // ---------------------------------------------------------------- protocol automaton

  datatype Act =
    | SetConnectionPending | ResetInput | ResetOutput | StopTcp
    | ResolveConnected | ResolveConnection | ResetSarm | Discard

  datatype Transition = Transition(next: ProtocolState, actions: seq<Act>)

  /** m_protocolStateTransitionMap; None where the map has no entry. */
  function Row(from: ProtocolState, event: ConnectionEvent): Option<Transition> {
    match (from, event)
    case (Connection, ReceivedSarm) => Some(Transition(InputConnected, [SetConnectionPending, ResetInput]))
    case (Connection, ReceivedUa) => Some(Transition(OutputConnected, [SetConnectionPending, ResetOutput]))
    case (Connection, MaxSarmSent) => Some(Transition(Connection, [StopTcp, ResolveConnection]))
    case (Connection, ToRecv) => Some(Transition(Connection, [StopTcp, ResolveConnection]))
    case (InputConnected, ReceivedSarm) => Some(Transition(InputConnected, [SetConnectionPending, ResetInput]))
    case (InputConnected, ToRecv) => Some(Transition(Connection, [ResolveConnection]))
    case (InputConnected, ReceivedUa) => Some(Transition(Connected, [ResetOutput, ResolveConnected]))
    case (InputConnected, MaxSarmSent) => Some(Transition(Connection, [StopTcp, ResolveConnection]))
    case (OutputConnected, ReceivedSarm) => Some(Transition(Connected, [ResetInput, ResolveConnected]))
    case (OutputConnected, MaxSend) => Some(Transition(Connection, [ResetSarm, Discard, ResolveConnection]))
    case (Connected, MaxSend) => Some(Transition(InputConnected, [SetConnectionPending, ResetSarm, Discard, ResetInput]))
    case (Connected, ToTcAck) => Some(Transition(InputConnected, [SetConnectionPending, ResetSarm, Discard, ResetInput]))
    case (Connected, ReceivedSarm) => Some(Transition(InputConnected, [SetConnectionPending, ResetSarm, Discard, ResetInput]))
    case (Connected, ToRecv) => Some(Transition(OutputConnected, [SetConnectionPending, Discard, ResetOutput]))
    case (Connection, TcpCnxLost) => Some(Transition(Connection, [ResolveConnection]))
    case (InputConnected, TcpCnxLost) => Some(Transition(Connection, [ResolveConnection]))
    case (OutputConnected, TcpCnxLost) => Some(Transition(Connection, [Discard, ResolveConnection]))
    case (Connected, TcpCnxLost) => Some(Transition(Connection, [ResolveConnection, Discard]))
    case _ => None
  }

  /** The state an action asks the arbiter for. */
  function Wanted(a: Act): Option<ConnectionState> {
    match a
    case SetConnectionPending => Some(PendingHnz)
    case ResolveConnected => Some(Active)
    case ResolveConnection => Some(Disconnected)
    case _ => None
  }

  /** What an action does to the variables of its own path, after the arbiter answered. */
  function LinkAct(a: Act, p: PathState, now: int): PathState {
    match a
    case SetConnectionPending => p
    case ResetInput => ResetInputVariables(p, now)
    case ResetOutput => ResetOutputVariables(p)
    case StopTcp => p.(tcp := false)
    case ResolveConnected => p.(lastConnected := now)
    case ResolveConnection =>
      ResetSarmCounters(ResetOutputVariables(ResetInputVariables(p, now)), now).(lastSarm := 0)
    case ResetSarm => ResetSarmCounters(p, now)
    case Discard => DiscardMessages(p)
  }

  function DoAct(s: Sys, i: nat, a: Act, now: int): (r: Sys)
    requires i < |s.paths|
    ensures |r.paths| == |s.paths| && (ActiveInRange(s) ==> ActiveInRange(r))
  {
    var s1 := if Wanted(a).Some? then Request(s, i, Wanted(a).value) else s;
    SetPath(s1, i, LinkAct(a, s1.paths[i], now))
  }

  function DoActs(s: Sys, i: nat, acts: seq<Act>, now: int): (r: Sys)
    requires i < |s.paths|
    ensures |r.paths| == |s.paths| && (ActiveInRange(s) ==> ActiveInRange(r))
    decreases |acts|
  {
    if acts == [] then s else DoActs(DoAct(s, i, acts[0], now), i, acts[1..], now)
  }

  function ProtocolTransition(s: Sys, i: nat, event: ConnectionEvent, now: int): (r: Sys)
    requires i < |s.paths|
    ensures |r.paths| == |s.paths| && (ActiveInRange(s) ==> ActiveInRange(r))
  {
    var row := Row(s.paths[i].proto, event);
    if row.None? then s
    else DoActs(SetPath(s, i, s.paths[i].(proto := row.value.next)), i, row.value.actions, now)
  }

  // ---------------------------------------------------------------- General Interrogation

  const GI_REQUEST: Payload := [0x13, 0x01]

  function NotifyGiSent(s: Sys, now: int): Sys {
    s.(fledge := if s.giRepeat == 0 || s.fledge.giStatus != GiInProgress then s.fledge.(giStatus := GiStarted)
                 else s.fledge,
       giRepeat := s.giRepeat + 1,
       giStart := now)
  }

  function SendGeneralInterrogation(cfg: SysConf, s: Sys, i: nat, now: int): (r: Sys)
    requires WellSized(cfg, s) && i < |s.paths|
    ensures WellSized(cfg, r)
  {
    var o := SendInfo(cfg.paths[i], s.paths[i], GI_REQUEST, now);
    var s1 := SetPath(s, i, o.state);
    var s2 := if MaySend(cfg.paths[i], s.paths[i].proto, GI_REQUEST) then s1.(giLog := s.giLog + [Requested(o.ok)]) else s1;
    if o.ok then NotifyGiSent(s2, now) else s2
  }

  function CloseGi(cfg: SysConf, s: Sys, success: bool): Sys {
    s.(giRepeat := 0,
       giLog := s.giLog + [GiEnded(GiResult.Unfiltered(cfg.tsAddresses, s.fledge.giReceived))],
       fledge := s.fledge.(invalidated := GiResult.Unfiltered(cfg.tsAddresses, s.fledge.giReceived),
                           giStatus := if success then GiFinished else GiFailed,
                           giReceived := []))
  }

  /** GICompleted. A delayed GI goes to the active path without a null check. */
  function GiCompleted(cfg: SysConf, s: Sys, success: bool, now: int): (r: Sys)
    requires WellSized(cfg, s)
    ensures WellSized(cfg, r)
  {
    var s1 := CloseGi(cfg, s, success);
    if !s1.fledge.giInQueue then s1
    else if s1.active == None then s1.(crashed := true)
    else
      var s2 := SendGeneralInterrogation(cfg, s1, s1.active.value, now);
      s2.(fledge := s2.fledge.(giInQueue := false))
  }

  function ForgetReceived(s: Sys): Sys {
    s.(fledge := s.fledge.(giReceived := []), giLog := s.giLog + [ListCleared])
  }

  function CheckGiCompleted(cfg: SysConf, s: Sys, success: bool, now: int): (r: Sys)
    requires WellSized(cfg, s)
    ensures WellSized(cfg, r)
  {
    if success then GiCompleted(cfg, s, true, now)
    else if s.giRepeat > cfg.giRepeatMax then GiCompleted(cfg, s, false, now)
    else
      var s1 := ForgetReceived(s);
      if s1.active == None then s1 else SendGeneralInterrogation(cfg, s1, s1.active.value, now)
  }

  /** A request for a GI from outside: refused without an active path, delayed while a GI runs. */
  function RequestGi(cfg: SysConf, s: Sys, now: int): (r: Sys)
    requires WellSized(cfg, s)
    ensures WellSized(cfg, r)
  {
    if s.active == None then s
    else if s.fledge.giStatus == GiStarted || s.fledge.giStatus == GiInProgress then
      s.(fledge := s.fledge.(giInQueue := true))
    else SendGeneralInterrogation(cfg, s, s.active.value, now)
  }

  function ScheduledTime(schedule: Schedule, current: nat): nat {
    current - current % DAY_MS + (schedule.hour * 60 + schedule.min) * 60000
  }

  /** Entry of m_manageMessages: a slot already over today is skipped. */
  function StartSchedule(schedule: Schedule, current: nat): GiSchedule {
    var time := ScheduledTime(schedule, current);
    GiSchedule(current / DAY_MS, time, schedule.active && current >= time)
  }

  /** Detection of a new day. */
  function NewDay(schedule: Schedule, g: GiSchedule, current: nat): GiSchedule {
    if g.day != current / DAY_MS then GiSchedule(current / DAY_MS, ScheduledTime(schedule, current), false) else g
  }

  predicate SlotReached(schedule: Schedule, g: GiSchedule, current: nat) {
    schedule.active && !g.alreadySent && g.time <= current
  }

  /** The part of m_check_GI about a running GI. */
  function CheckGiTimeout(cfg: SysConf, s: Sys, current: nat, now: int): (r: Sys)
    requires WellSized(cfg, s)
    ensures WellSized(cfg, r)
  {
    if s.giRepeat != 0 && s.giStart + cfg.giTimeMax < current then CheckGiCompleted(cfg, s, false, now) else s
  }

  function CheckGi(cfg: SysConf, s: Sys, current: nat, now: int): (r: Sys)
    requires WellSized(cfg, s)
    ensures WellSized(cfg, r)
  {
    var s1 := CheckGiTimeout(cfg, s, current, now);
    if s1.crashed then s1
    else
      var s2 := s1.(sched := NewDay(cfg.schedule, s1.sched, current));
      if SlotReached(cfg.schedule, s2.sched, current) then
        var s3 := if s2.active == None then s2 else SendGeneralInterrogation(cfg, s2, s2.active.value, now);
        s3.(sched := s3.sched.(alreadySent := true))
      else s2
  }

  // ---------------------------------------------------------------- messages received

  /** A message as m_extract_messages cuts it. */
  predicate WholeMessage(m: Payload) {
    m != [] && (Messages.CodeLength(m[0]) != 0 ==> |m| == Messages.CodeLength(m[0]))
  }

  function AckAll(ps: seq<PathState>, kind: CommandKind, addr: int): (r: seq<PathState>)
    ensures |r| == |ps|
    ensures forall i | 0 <= i < |ps| ::
              r[i] == ps[i].(commands := Commands.Unacknowledged(ps[i].commands, kind, addr))
  {
    seq(|ps|, i requires 0 <= i < |ps| =>
      ps[i].(commands := Commands.Unacknowledged(ps[i].commands, kind, addr)))
  }

  function HandleTsce(cfg: SysConf, s: Sys, m: Payload, now: int): (r: Sys)
    requires WellSized(cfg, s) && |m| == 5
    ensures WellSized(cfg, r)
  {
    var address := Commands.JoinedAddress(m[1], m[2]);
    if address !in cfg.tsAddresses then s
    else if address in cfg.triggers && cfg.triggers[address] != -1 && m[2] / 8 % 2 == cfg.triggers[address] then
      RequestGi(cfg, s, now)
    else s
  }

  /** m_handleTSCG. */
  function NoteTscg(cfg: SysConf, s: Sys, block: Byte): Sys {
    s.(giLog := s.giLog + [Brought(block)],
       fledge := s.fledge.(
         giReceived := s.fledge.giReceived + GiResult.TscgReceived(cfg.tsAddresses, block),
         giStatus := if s.fledge.giStatus == GiStarted then GiInProgress else s.fledge.giStatus))
  }

  /** The last expected TS came last. */
  predicate LastIsIn(cfg: SysConf, received: seq<nat>) {
    received != [] && received[|received| - 1] == cfg.lastTsAddress
  }

  /** m_handleTSCG, and the end of the GI when the last expected TS is in. */
  function HandleTscg(cfg: SysConf, s: Sys, m: Payload, now: int): (r: Sys)
    requires WellSized(cfg, s) && |m| == 6
    ensures WellSized(cfg, r)
  {
    var s1 := NoteTscg(cfg, s, m[1]);
    if LastIsIn(cfg, s1.fledge.giReceived) then CheckGiCompleted(cfg, s1, true, now) else s1
  }

  /** m_handle_message, without the readings sent to Fledge. */
  function HandleMessage(cfg: SysConf, s: Sys, m: Payload, now: int): (r: Sys)
    requires WellSized(cfg, s) && WholeMessage(m)
    ensures WellSized(cfg, r)
  {
    if m[0] == Messages.MODULO_CODE then s.(fledge := s.fledge.(daySection := m[1]))
    else if m[0] == Messages.TSCE_CODE then HandleTsce(cfg, s, m, now)
    else if m[0] == Messages.TSCG_CODE then HandleTscg(cfg, s, m, now)
    else if m[0] == Messages.TCACK_CODE then
      s.(paths := AckAll(s.paths, TC, Commands.JoinedAddress(m[1], m[2])))
    else if m[0] == Messages.TVCACK_CODE then s.(paths := AckAll(s.paths, TVC, m[1] % 32))
    else s
  }

  function HandleMessages(cfg: SysConf, s: Sys, ms: seq<Payload>, now: int): (r: Sys)
    requires WellSized(cfg, s) && forall m | m in ms :: WholeMessage(m)
    ensures WellSized(cfg, r)
    decreases |ms|
  {
    if ms == [] || s.crashed then s else HandleMessages(cfg, HandleMessage(cfg, s, ms[0], now), ms[1..], now)
  }

  lemma {:induction false} ExtractedAreWhole(bulle: (Byte, Byte), data: Payload)
    requires Messages.Uncut(bulle, data)
    ensures forall m | m in Messages.Extract(bulle, data) :: WholeMessage(m)
    decreases |data|
  {
    var n := Messages.FirstLength(bulle, data);
    if n < |data| {
      ExtractedAreWhole(bulle, data[n..]);
      assert WholeMessage(data[..n]);
    }
  }

  // ---------------------------------------------------------------- frames received

  /** Frames that a control byte can express, with a payload that is not cut. */
  predicate Expressible(c: PathConf, f: Frame) {
    match f
    case RR(nr, _) => 0 <= nr < 8
    case INFO(ns, nr, _, p) => 0 <= ns < 8 && 0 <= nr < 8 && Messages.Uncut(c.bulleReceive, p)
    case _ => true
  }

  /** What m_extract_messages hands up, before the NR of the frame is known to be valid. */
  function Extracted(cfg: SysConf, s: Sys, i: nat, p: Payload): (ms: seq<Payload>)
    requires WellSized(cfg, s) && i < |s.paths| && Messages.Uncut(cfg.paths[i].bulleReceive, p)
    ensures forall m | m in ms :: WholeMessage(m)
  {
    if CanExtract(s, i) then
      ExtractedAreWhole(cfg.paths[i].bulleReceive, p);
      Messages.Extract(cfg.paths[i].bulleReceive, p)
    else []
  }

  /** A BULLE among the extracted messages restarts the inactivity timer. */
  function NoteBulle(c: PathConf, s: PathState, ms: seq<Payload>, now: int): PathState {
    if exists m :: m in ms && Messages.StartsWithBulle(c.bulleReceive, m) then s.(lastMsg := now) else s
  }

  /** m_receivedINFO up to the point where the messages are handed up. */
  function AnswerInfo(cfg: SysConf, s: Sys, i: nat, f: Frame, now: int): (r: (Sys, seq<Payload>))
    requires WellSized(cfg, s) && i < |s.paths|
    requires f.INFO? && Expressible(cfg.paths[i], f) && WaitingSendable(cfg.paths[i], s.paths[i])
    ensures WellSized(cfg, r.0) && forall m | m in r.1 :: WholeMessage(m)
  {
    if s.paths[i].proto == OutputConnected then (s, [])
    else
      var ms := Extracted(cfg, s, i, f.payload);
      var p1 := NoteBulle(cfg.paths[i], s.paths[i], ms, now);
      var o := SendRR(cfg.paths[i], p1, f.poll, f.ns, f.nr, f.payload, CanExtract(s, i), now);
      (SetPath(s, i, o.state), if o.ok then ms else [])
  }

  function HandleInfo(cfg: SysConf, s: Sys, i: nat, f: Frame, now: int): (r: Sys)
    requires WellSized(cfg, s) && i < |s.paths|
    requires f.INFO? && Expressible(cfg.paths[i], f) && WaitingSendable(cfg.paths[i], s.paths[i])
    ensures WellSized(cfg, r)
  {
    var (s1, ms) := AnswerInfo(cfg, s, i, f, now);
    HandleMessages(cfg, s1, ms, now)
  }

  function ReceivedSarmFrame(cfg: SysConf, s: Sys, i: nat, now: int): (r: Sys)
    requires WellSized(cfg, s) && i < |s.paths|
    ensures WellSized(cfg, r)
  {
    var s1 := SetPath(s, i, SendUA(s.paths[i], now));
    if now - s.paths[i].lastConnected > cfg.paths[i].repeatTimeout then ProtocolTransition(s1, i, ReceivedSarm, now)
    else s1
  }

  /** m_analyze_frame, then the handling of the messages it returns. */
  function FrameReceived(cfg: SysConf, s: Sys, i: nat, f: Frame, now: int): (r: Sys)
    requires WellSized(cfg, s) && i < |s.paths|
    requires Expressible(cfg.paths[i], f) && WaitingSendable(cfg.paths[i], s.paths[i])
    ensures WellSized(cfg, r)
  {
    match f
    case UA => ProtocolTransition(s, i, ReceivedUa, now)
    case SARM => ReceivedSarmFrame(cfg, s, i, now)
    case INFO(_, _, _, _) => if s.paths[i].proto == Connection then s else HandleInfo(cfg, s, i, f, now)
    case RR(nr, final) =>
      if s.paths[i].proto == Connection then s
      else SetPath(s, i, ReceivedRR(cfg.paths[i], s.paths[i], nr, final, now).state)
  }

  // ---------------------------------------------------------------- timers

  /** A SARM is due; after the last one allowed the path starts over first. */
  function SarmTurn(cfg: SysConf, s: Sys, i: nat, now: int): (r: Sys)
    requires WellSized(cfg, s) && i < |s.paths|
    ensures WellSized(cfg, r)
  {
    var s1 := if s.paths[i].sarmSent == cfg.paths[i].maxSarm then ProtocolTransition(s, i, MaxSarmSent, now) else s;
    SetPath(s1, i, SendSARM(s1.paths[i], now))
  }

  /** A BULLE is sent when nothing else was for long enough. */
  function SendDueBulle(c: PathConf, p: PathState, now: int): PathState {
    if now - p.lastMsgSent >= c.bulleTime * 1000 then SendInfo(c, p, [c.bulleSend.0, c.bulleSend.1], now).state else p
  }

  /** m_manageHNZProtocolState. */
  function ManageProtocolState(cfg: SysConf, s: Sys, i: nat, now: int): (r: Sys)
    requires WellSized(cfg, s) && i < |s.paths|
    ensures WellSized(cfg, r)
  {
    var c, p := cfg.paths[i], s.paths[i];
    if p.proto == Connection || p.proto == InputConnected then
      if now - p.lastMsg <= c.inaccTimeout * 1000 then
        if now - p.lastSarm < c.repeatTimeout then s else SarmTurn(cfg, s, i, now)
      else ProtocolTransition(s, i, ToRecv, now)
    else
      var s1 := SetPath(s, i, SendDueBulle(c, p, now));
      if now - p.lastMsg > c.inaccTimeout * 1000 && p.proto == Connected then ProtocolTransition(s1, i, ToRecv, now)
      else s1
  }

  /** Calendar values the init messages carry; the fraction of the section comes from the clock. */
  datatype Calendar = Calendar(mday: Byte, month: Byte, year: Byte, section: Byte)

  function DateMessage(cal: Calendar): Payload {
    [0x1c, cal.mday, cal.month, cal.year]
  }

  function TimeMessage(cal: Calendar, now: int): Payload {
    var frac := now % 600000 / 10;
    [0x1d, cal.section, frac / 256, frac % 256, 0]
  }

  function SendDate(cfg: SysConf, s: Sys, i: nat, cal: Calendar, now: int): (r: Sys)
    requires WellSized(cfg, s) && i < |s.paths|
    ensures WellSized(cfg, r)
  {
    SetPath(s, i, SendInfo(cfg.paths[i], s.paths[i], DateMessage(cal), now).state)
  }

  /** The day section changes whether or not the message went out. */
  function SendTime(cfg: SysConf, s: Sys, i: nat, cal: Calendar, now: int): (r: Sys)
    requires WellSized(cfg, s) && i < |s.paths|
    ensures WellSized(cfg, r)
  {
    SetPath(s, i, SendInfo(cfg.paths[i], s.paths[i], TimeMessage(cal, now), now).state)
      .(fledge := s.fledge.(daySection := cal.section))
  }

  /** sendInitMessages: date, time, GI request. */
  function SendInitMessages(cfg: SysConf, s: Sys, i: nat, cal: Calendar, now: int): (r: Sys)
    requires WellSized(cfg, s) && i < |s.paths|
    ensures WellSized(cfg, r)
  {
    var s1 := SendTime(cfg, SendDate(cfg, s, i, cal, now), i, cal, now);
    var s2 := SendGeneralInterrogation(cfg, s1, i, now);
    SetPath(s2, i, s2.paths[i].(lastConnected := 0))
  }

  /** The first half of m_check_timer: acknowledgement of information messages. */
  function CheckRepeat(cfg: SysConf, s: Sys, i: nat, current: int, now: int): (r: Sys)
    requires WellSized(cfg, s) && i < |s.paths|
    ensures WellSized(cfg, r)
  {
    var c, p := cfg.paths[i], s.paths[i];
    if p.sent != [] && p.tcp && p.lastSent + cfg.repeatTimeout < current then
      if p.repeat >= c.repeatMax then ProtocolTransition(s, i, MaxSend, now)
      else SetPath(s, i, Requeue(SendBackInfo(p, now)))
    else s
  }

  /** The second half: init messages after a connection. */
  function CheckInit(cfg: SysConf, s: Sys, i: nat, cal: Calendar, now: int): (r: Sys)
    requires WellSized(cfg, s) && i < |s.paths|
    ensures WellSized(cfg, r)
  {
    var p := s.paths[i];
    if p.proto == Connected && p.lastConnected > 0 && now - p.lastConnected >= cfg.repeatTimeout then
      if p.conn == Active && s.sendInit then SendInitMessages(cfg, s, i, cal, now).(sendInit := false)
      else SetPath(s, i, p.(lastConnected := 0))
    else s
  }

  function CheckCommandTimer(s: Sys, i: nat, current: int): (r: Sys)
    requires i < |s.paths|
  {
    SetPath(s, i, s.paths[i].(commands := Commands.Unexpired(s.paths[i].commands, current)))
  }

  // ---------------------------------------------------------------- commands

  function SendTcCommand(cfg: SysConf, s: Sys, address: int, value: Byte, now: int): (r: Sys)
    requires WellSized(cfg, s)
    ensures WellSized(cfg, r)
  {
    if s.active == None then s
    else
      var i := s.active.value;
      var o := SendInfo(cfg.paths[i], s.paths[i], Commands.TcPayload(address, value), now);
      SetPath(s, i, RegisterCommand(cfg.paths[i], o.state, o.ok, TC, address, now))
  }

  function SendTvcCommand(cfg: SysConf, s: Sys, address: Byte, value: int, now: int): (r: Sys)
    requires WellSized(cfg, s)
    ensures WellSized(cfg, r)
  {
    if s.active == None then s
    else
      var i := s.active.value;
      var o := SendInfo(cfg.paths[i], s.paths[i], Commands.TvcPayload(address, value), now);
      SetPath(s, i, RegisterCommand(cfg.paths[i], o.state, o.ok, TVC, address, now))
  }

  // ---------------------------------------------------------------- steps and runs

  datatype Event =
    | Connect(i: nat, now: int)                                     // TCP connection established
    | TcpLost(i: nat)                                               // TCP connection lost
    | Disconnect(i: nat, now: int)                                  // disconnect()
    | Stop                                                          // the connection is shutting down
    | Receive(i: nat, frame: Frame, now: int)
    | Manage(i: nat, now: int)                                      // turn of the path thread
    | Repeat(i: nat, current: nat, now: int)                        // turns of the message thread
    | Init(i: nat, cal: Calendar, now: int)
    | ExpireCommands(i: nat, current: nat)
    | GiTurn(current: nat, now: int)
    | TcCommand(address: int, value: Byte, now: int)                // operations of Fledge
    | TvcCommand(tvcAddress: Byte, tvcValue: int, now: int)
    | GiRequest(now: int)

  /** The refill loop ends on every path. */
  predicate Ready(cfg: SysConf, s: Sys) {
    WellSized(cfg, s) && forall i | 0 <= i < |s.paths| :: WaitingSendable(cfg.paths[i], s.paths[i])
  }

  predicate Concerns(s: Sys, e: Event) {
    match e
    case Connect(i, _) => i < |s.paths|
    case TcpLost(i) => i < |s.paths|
    case Disconnect(i, _) => i < |s.paths|
    case Receive(i, _, _) => i < |s.paths|
    case Manage(i, _) => i < |s.paths|
    case Repeat(i, _, _) => i < |s.paths|
    case Init(i, _, _) => i < |s.paths|
    case ExpireCommands(i, _) => i < |s.paths|
    case _ => true
  }

  function Effect(cfg: SysConf, s: Sys, e: Event): Sys
    requires Ready(cfg, s) && Concerns(s, e)
  {
    match e
    case Connect(i, now) => SetPath(s, i, s.paths[i].(lastMsg := now, lastMsgSent := now, tcp := true))
    case TcpLost(i) => SetPath(s, i, s.paths[i].(tcp := false))
    case Disconnect(i, now) =>
      var s1 := ProtocolTransition(s, i, TcpCnxLost, now);
      SetPath(s1, i, s1.paths[i].(tcp := false))
    case Stop => s.(running := false)
    case Receive(i, f, now) => if Expressible(cfg.paths[i], f) then FrameReceived(cfg, s, i, f, now) else s
    case Manage(i, now) => ManageProtocolState(cfg, s, i, now)
    case Repeat(i, current, now) => CheckRepeat(cfg, s, i, current, now)
    case Init(i, cal, now) => CheckInit(cfg, s, i, cal, now)
    case ExpireCommands(i, current) => CheckCommandTimer(s, i, current)
    case GiTurn(current, now) => CheckGi(cfg, s, current, now)
    case TcCommand(address, value, now) => SendTcCommand(cfg, s, address, value, now)
    case TvcCommand(address, value, now) => SendTvcCommand(cfg, s, address, value, now)
    case GiRequest(now) => RequestGi(cfg, s, now)
  }

  /** One step. A crashed program takes none; a state in which the refill loop would spin takes none
      either, and none is ever reached. */
  function Step(cfg: SysConf, s: Sys, e: Event): Sys {
    if s.crashed || !Ready(cfg, s) || !Concerns(s, e) then s else Effect(cfg, s, e)
  }

  const START_FLEDGE := Fledge(NotConnected, GiIdle, false, [], [], 0)

  /** The state the constructors leave, at time `now`. */
  function InitialPaths(n: nat, now: int): (ps: seq<PathState>)
    ensures |ps| == n && forall i | 0 <= i < n :: ps[i] == ResetSarmCounters(FRESH_PATH, now)
  {
    seq(n, _ => ResetSarmCounters(FRESH_PATH, now))
  }

  function Initial(cfg: SysConf, current: nat, now: int): Sys {
    Sys(InitialPaths(|cfg.paths|, now), None, None, true, true, 0, [], 0,
        StartSchedule(cfg.schedule, current), START_FLEDGE, false)
  }

  function Run(cfg: SysConf, s: Sys, evs: seq<Event>): Sys {
    if evs == [] then s else Step(cfg, Run(cfg, s, evs[..|evs| - 1]), evs[|evs| - 1])
  }
}
