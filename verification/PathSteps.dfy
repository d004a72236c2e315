/** What an event does to the state and the timers of each path: the arbiter, the queues and the messages left
    aside. */
module PathSteps {
  import opened HnzTypes
  import opened Modulo8
  import opened Link
  import opened LinkInvariants
  import opened HnzSystem
  import opened Arbitration
  import opened SystemInvariants
  import Commands
  import Messages

  /** The clock reading of a step, where it reads one. */
  function TimeOf(e: Event): int {
    match e
    case Connect(_, now) => now
    case Disconnect(_, now) => now
    case Receive(_, _, now) => now
    case Manage(_, now) => now
    case Repeat(_, _, now) => now
    case Init(_, _, now) => now
    case GiTurn(_, now) => now
    case TcCommand(_, _, now) => now
    case TvcCommand(_, _, now) => now
    case GiRequest(now) => now
    case _ => 0
  }

  /** The frames that the step from p to q has put on the wire. */
  function NewFrames(p: PathState, q: PathState): seq<Transmission> {
    if p.h.wire <= q.h.wire then q.h.wire[|p.h.wire|..] else []
  }

  predicate FirstTransmission(t: Transmission) {
    t.frame.INFO? && !t.frame.poll
  }

  /** Between p and q messages were sent for the first time, handed over or not, and nothing else happened that the
      protocol state or a timer depends on. */
  predicate SentOnly(p: PathState, q: PathState, now: int) {
    && q.proto == p.proto && q.tcp == p.tcp && q.nr == p.nr && q.nrr == p.nrr && q.repeat == p.repeat
    && q.sarmSent == p.sarmSent && q.lastMsg == p.lastMsg && q.lastSarm == p.lastSarm
    && q.lastConnected == p.lastConnected
    && p.sent <= q.sent && p.h.wire <= q.h.wire
    && (forall t | t in NewFrames(p, q) :: FirstTransmission(t))
    && q.lastMsgSent == (if NewFrames(p, q) != [] then now else p.lastMsgSent)
    && q.lastSent == (if p.sent == [] && q.sent != [] then now else p.lastSent)
    && q.h == p.h.(wire := q.h.wire, accepted := q.h.accepted, submitted := q.h.submitted, txs := q.h.txs)
  }

  lemma SentNothing(p: PathState, q: PathState, now: int)
    requires q == p.(conn := q.conn, commands := q.commands)
    ensures SentOnly(p, q, now)
  {
    assert NewFrames(p, q) == [];
  }

  lemma SentTwice(p: PathState, q: PathState, r: PathState, now: int)
    requires SentOnly(p, q, now) && SentOnly(q, r, now)
    ensures SentOnly(p, r, now)
  {
    assert NewFrames(p, r) == NewFrames(p, q) + NewFrames(q, r);
  }

  lemma SendInfoSends(c: PathConf, p: PathState, m: Payload, now: int)
    ensures SentOnly(p, SendInfo(c, p, m, now).state, now)
  {
    var q := SendInfo(c, p, m, now).state;
    if MaySend(c, p.proto, m) && |p.sent| < c.ratio {
      assert NewFrames(p, q) == [q.h.wire[|p.h.wire|]];
    } else {
      assert NewFrames(p, q) == [];
    }
  }

  lemma {:induction false} RefillSends(c: PathConf, p: PathState, now: int)
    requires WaitingSendable(c, p)
    ensures SentOnly(p, Refill(c, p, now), now)
    decreases |p.waiting|
  {
    if p.waiting != [] && |p.sent| < c.ratio {
      var q := RefillOnce(c, p, now);
      assert NewFrames(p, q) == [q.h.wire[|p.h.wire|]];
      RefillSends(c, q, now);
      SentTwice(p, q, Refill(c, p, now), now);
    } else {
      SentNothing(p, p, now);
    }
  }

  // ---------------------------------------------------------------- the whole plugin

  /** Every path has sent at most. */
  predicate AllSentOnly(s: Sys, r: Sys, now: int) {
    && |r.paths| == |s.paths| && r.active == s.active && r.first == s.first && r.running == s.running
    && r.sendInit == s.sendInit
    && forall j | 0 <= j < |s.paths| :: SentOnly(s.paths[j], r.paths[j], now)
  }

  lemma AllSentTwice(s: Sys, m: Sys, r: Sys, now: int)
    requires AllSentOnly(s, m, now) && AllSentOnly(m, r, now)
    ensures AllSentOnly(s, r, now)
  {
    forall j | 0 <= j < |s.paths| ensures SentOnly(s.paths[j], r.paths[j], now) {
      SentTwice(s.paths[j], m.paths[j], r.paths[j], now);
    }
  }

  /** One path has sent, the others are the same. */
  lemma OnePathSends(s: Sys, r: Sys, i: nat, now: int)
    requires i < |s.paths| == |r.paths| && r.paths == s.paths[i := r.paths[i]]
    requires r.active == s.active && r.first == s.first && r.running == s.running && r.sendInit == s.sendInit
    requires SentOnly(s.paths[i], r.paths[i], now)
    ensures AllSentOnly(s, r, now)
  {
    forall j | 0 <= j < |s.paths| ensures SentOnly(s.paths[j], r.paths[j], now) {
      if j != i {
        SentNothing(s.paths[j], r.paths[j], now);
      }
    }
  }

  lemma SamePathsSend(s: Sys, r: Sys, now: int)
    requires r.active == s.active && r.first == s.first && r.running == s.running && r.sendInit == s.sendInit && |r.paths| == |s.paths|
    requires forall j | 0 <= j < |s.paths| :: r.paths[j] == s.paths[j].(commands := r.paths[j].commands)
    ensures AllSentOnly(s, r, now)
  {
    forall j | 0 <= j < |s.paths| ensures SentOnly(s.paths[j], r.paths[j], now) {
      SentNothing(s.paths[j], r.paths[j], now);
    }
  }

  lemma SendGiSends(cfg: SysConf, s: Sys, i: nat, now: int)
    requires WellSized(cfg, s) && i < |s.paths|
    ensures AllSentOnly(s, SendGeneralInterrogation(cfg, s, i, now), now)
  {
    SendInfoSends(cfg.paths[i], s.paths[i], GI_REQUEST, now);
    OnePathSends(s, SendGeneralInterrogation(cfg, s, i, now), i, now);
  }

  lemma RequestGiSends(cfg: SysConf, s: Sys, now: int)
    requires WellSized(cfg, s)
    ensures AllSentOnly(s, RequestGi(cfg, s, now), now)
  {
    SamePathsSend(s, s, now);
    if s.active.Some? {
      SendGiSends(cfg, s, s.active.value, now);
      SamePathsSend(s, s.(fledge := s.fledge.(giInQueue := true)), now);
    }
  }

  lemma GiCompletedSends(cfg: SysConf, s: Sys, success: bool, now: int)
    requires WellSized(cfg, s)
    ensures AllSentOnly(s, GiCompleted(cfg, s, success, now), now)
  {
    var s1 := CloseGi(cfg, s, success);
    SamePathsSend(s, s1, now);
    if s1.fledge.giInQueue && s1.active.Some? {
      SendGiSends(cfg, s1, s1.active.value, now);
      AllSentTwice(s, s1, SendGeneralInterrogation(cfg, s1, s1.active.value, now), now);
    }
  }

  lemma CheckGiTimeoutSends(cfg: SysConf, s: Sys, current: nat, now: int)
    requires WellSized(cfg, s)
    ensures AllSentOnly(s, CheckGiTimeout(cfg, s, current, now), now)
  {
    GiCompletedSends(cfg, s, false, now);
    SamePathsSend(s, s, now);
    var s1 := ForgetReceived(s);
    SamePathsSend(s, s1, now);
    if s1.active.Some? {
      SendGiSends(cfg, s1, s1.active.value, now);
      AllSentTwice(s, s1, SendGeneralInterrogation(cfg, s1, s1.active.value, now), now);
    }
  }

  lemma CheckGiSends(cfg: SysConf, s: Sys, current: nat, now: int)
    requires WellSized(cfg, s)
    ensures AllSentOnly(s, CheckGi(cfg, s, current, now), now)
  {
    var s1 := CheckGiTimeout(cfg, s, current, now);
    CheckGiTimeoutSends(cfg, s, current, now);
    var s2 := s1.(sched := NewDay(cfg.schedule, s1.sched, current));
    if s2.active.Some? {
      SendGiSends(cfg, s2, s2.active.value, now);
      AllSentTwice(s, s2, SendGeneralInterrogation(cfg, s2, s2.active.value, now), now);
    }
  }

  lemma MessageSends(cfg: SysConf, s: Sys, m: Payload, now: int)
    requires WellSized(cfg, s) && WholeMessage(m)
    ensures AllSentOnly(s, HandleMessage(cfg, s, m, now), now)
  {
    if m[0] == Messages.TSCE_CODE {
      RequestGiSends(cfg, s, now);
      SamePathsSend(s, s, now);
    } else if m[0] == Messages.TSCG_CODE {
      var s1 := NoteTscg(cfg, s, m[1]);
      SamePathsSend(s, s1, now);
      GiCompletedSends(cfg, s1, true, now);
      AllSentTwice(s, s1, GiCompleted(cfg, s1, true, now), now);
    } else {
      SamePathsSend(s, HandleMessage(cfg, s, m, now), now);
    }
  }

  lemma {:induction false} MessagesSend(cfg: SysConf, s: Sys, ms: seq<Payload>, now: int)
    requires WellSized(cfg, s) && forall m | m in ms :: WholeMessage(m)
    ensures AllSentOnly(s, HandleMessages(cfg, s, ms, now), now)
    decreases |ms|
  {
    if ms == [] || s.crashed {
      SamePathsSend(s, s, now);
    } else {
      var s1 := HandleMessage(cfg, s, ms[0], now);
      MessageSends(cfg, s, ms[0], now);
      MessagesSend(cfg, s1, ms[1..], now);
      AllSentTwice(s, s1, HandleMessages(cfg, s, ms, now), now);
    }
  }

  /** The events that send at most, on any path. */
  predicate SendsAtMost(e: Event) {
    e.ExpireCommands? || e.GiTurn? || e.TcCommand? || e.TvcCommand? || e.GiRequest?
  }

  lemma CommandSent(cfg: SysConf, s: Sys, m: Payload, kind: CommandKind, addr: int, now: int)
    requires WellSized(cfg, s) && s.active.Some?
    ensures var i := s.active.value;
            var o := SendInfo(cfg.paths[i], s.paths[i], m, now);
            AllSentOnly(s, SetPath(s, i, RegisterCommand(cfg.paths[i], o.state, o.ok, kind, addr, now)), now)
  {
    var i := s.active.value;
    var o := SendInfo(cfg.paths[i], s.paths[i], m, now);
    var q := RegisterCommand(cfg.paths[i], o.state, o.ok, kind, addr, now);
    SendInfoSends(cfg.paths[i], s.paths[i], m, now);
    SentNothing(o.state, q, now);
    SentTwice(s.paths[i], o.state, q, now);
    OnePathSends(s, SetPath(s, i, q), i, now);
  }

  lemma CommandEventSends(cfg: SysConf, s: Sys, e: Event)
    requires Ready(cfg, s) && Concerns(s, e) && (e.TcCommand? || e.TvcCommand?)
    ensures AllSentOnly(s, Effect(cfg, s, e), TimeOf(e))
  {
    if s.active.None? {
      SamePathsSend(s, s, TimeOf(e));
    } else {
      match e
      case TcCommand(address, value, now) => CommandSent(cfg, s, Commands.TcPayload(address, value), TC, address, now);
      case TvcCommand(address, value, now) => CommandSent(cfg, s, Commands.TvcPayload(address, value), TVC, address, now);
    }
  }

  lemma EventSends(cfg: SysConf, s: Sys, e: Event)
    requires Ready(cfg, s) && Concerns(s, e) && SendsAtMost(e)
    ensures AllSentOnly(s, Effect(cfg, s, e), TimeOf(e))
  {
    match e
    case ExpireCommands(i, current) => SamePathsSend(s, Effect(cfg, s, e), 0);
    case GiTurn(current, now) => CheckGiSends(cfg, s, current, now);
    case GiRequest(now) => RequestGiSends(cfg, s, now);
    case _ => CommandEventSends(cfg, s, e);
  }

  // ---------------------------------------------------------------- what moves the protocol state

  /** What a path can learn about its connection. */
  datatype Signal = Quiet | SarmHeard | UaHeard | Silence | GaveUp | SarmsSpent | TcpGone

  predicate Silent(c: PathConf, p: PathState, now: int) {
    now - p.lastMsg > c.inaccTimeout * 1000
  }

  predicate SarmDue(c: PathConf, p: PathState, now: int) {
    !Sending(p) && now - p.lastSarm >= c.repeatTimeout
  }

  /** The oldest message was not acknowledged in time. */
  predicate Overdue(cfg: SysConf, p: PathState, current: int) {
    p.sent != [] && p.tcp && p.lastSent + cfg.repeatTimeout < current
  }

  /** What path i learns from an event. */
  function SignalOf(cfg: SysConf, s: Sys, e: Event, i: nat): Signal
    requires WellSized(cfg, s) && i < |s.paths|
  {
    var c, p := cfg.paths[i], s.paths[i];
    match e
    case Disconnect(j, _) => if j == i then TcpGone else Quiet
    case Receive(j, f, now) =>
      if j != i then Quiet
      else if f.UA? then UaHeard
      else if f.SARM? && now - p.lastConnected > c.repeatTimeout then SarmHeard
      else Quiet
    case Manage(j, now) =>
      if j != i then Quiet
      else if Silent(c, p, now) then Silence
      else if SarmDue(c, p, now) && p.sarmSent == c.maxSarm then SarmsSpent
      else Quiet
    case Repeat(j, current, _) => if j == i && Overdue(cfg, p, current) && p.repeat >= c.repeatMax then GaveUp else Quiet
    case _ => Quiet
  }

  /** The input is open when the peer's numbers are known, the output when it knows ours. */
  function InputAfter(before: bool, g: Signal): bool {
    match g
    case SarmHeard => true
    case Silence => false
    case SarmsSpent => false
    case TcpGone => false
    case _ => before
  }

  /** A peer that starts again while both were open has forgotten our numbers. */
  function OutputAfter(input: bool, before: bool, g: Signal): bool {
    match g
    case SarmHeard => before && !input
    case UaHeard => true
    case GaveUp => false
    case SarmsSpent => false
    case TcpGone => false
    case _ => before
  }

  /** The path falls back to the beginning. */
  predicate Falls(input: bool, output: bool, g: Signal) {
    (g == Silence && !output) || (g == GaveUp && !input) || g == SarmsSpent || g == TcpGone
  }

  /** Path p after it learnt g and became q. */
  predicate Moved(p: PathState, q: PathState, g: Signal, now: int) {
    var input, output := InputOpen(p), Sending(p);
    var fell := Falls(input, output, g);
    && InputOpen(q) == InputAfter(input, g) && Sending(q) == OutputAfter(input, output, g)
    && q.tcp == (p.tcp && g != SarmsSpent && (g == Silence ==> input || output))
    && q.lastMsg == (if g == SarmHeard || g == GaveUp || fell then now else p.lastMsg)
    && q.sarmSent == (if fell || g == GaveUp || (g == SarmHeard && input && output) then 0 else p.sarmSent)
    && q.lastSarm == (if fell then 0 else p.lastSarm)
    && q.lastConnected == (if q.proto == Connected && p.proto != Connected then now else p.lastConnected)
    && q.lastMsgSent == p.lastMsgSent && q.lastSent == p.lastSent && q.commands == p.commands
    && q.h.wire == p.h.wire && q.h.acknowledged == p.h.acknowledged
    && q.sent == (if Sending(q) && !(g == Silence && input) then p.sent else [])
  }

  function EventFor(g: Signal): ConnectionEvent
    requires g != Quiet
  {
    match g
    case SarmHeard => ReceivedSarm
    case UaHeard => ReceivedUa
    case Silence => ToRecv
    case GaveUp => MaxSend
    case SarmsSpent => MaxSarmSent
    case TcpGone => TcpCnxLost
  }

  /** The path's own part of the row. */
  function OwnPart(p: PathState, g: Signal, now: int): PathState
    requires g != Quiet
  {
    var row := Row(p.proto, EventFor(g));
    if row.None? then p else LinkActs(row.value.actions, p.(proto := row.value.next), now)
  }

  lemma RowMoves(p: PathState, g: Signal, now: int)
    requires g != Quiet && (!Sending(p) ==> p.sent == [])
    requires (g == GaveUp ==> Sending(p)) && (g == SarmsSpent ==> !Sending(p))
    ensures Moved(p, OwnPart(p, g, now), g, now)
  {
    match p.proto
    case Connection => ConnectionMoves(p, g, now);
    case InputConnected => InputMoves(p, g, now);
    case OutputConnected => OutputMoves(p, g, now);
    case Connected => ConnectedMoves(p, g, now);
  }

  lemma ConnectionMoves(p: PathState, g: Signal, now: int)
    requires p.proto == Connection && p.sent == [] && g != Quiet && g != GaveUp
    ensures Moved(p, OwnPart(p, g, now), g, now)
  {
    var row := Row(Connection, EventFor(g)).value;
    var a, p0 := row.actions, p.(proto := row.next);
    if |a| == 1 {
      ActsOfOne(a[0], p0, now);
    } else {
      ActsOfTwo(a[0], a[1], p0, now);
    }
  }

  lemma InputMoves(p: PathState, g: Signal, now: int)
    requires p.proto == InputConnected && p.sent == [] && g != Quiet && g != GaveUp
    ensures Moved(p, OwnPart(p, g, now), g, now)
  {
    var row := Row(InputConnected, EventFor(g)).value;
    var a, p0 := row.actions, p.(proto := row.next);
    if |a| == 1 {
      ActsOfOne(a[0], p0, now);
    } else {
      ActsOfTwo(a[0], a[1], p0, now);
    }
  }

  lemma OutputMoves(p: PathState, g: Signal, now: int)
    requires p.proto == OutputConnected && g != Quiet && g != SarmsSpent
    ensures Moved(p, OwnPart(p, g, now), g, now)
  {
    var row := Row(OutputConnected, EventFor(g));
    if row.Some? {
      var a, p0 := row.value.actions, p.(proto := row.value.next);
      if |a| == 2 {
        ActsOfTwo(a[0], a[1], p0, now);
      } else {
        ActsOfThree(a[0], a[1], a[2], p0, now);
      }
    }
  }

  lemma ConnectedMoves(p: PathState, g: Signal, now: int)
    requires p.proto == Connected && g != Quiet && g != SarmsSpent
    ensures Moved(p, OwnPart(p, g, now), g, now)
  {
    var row := Row(Connected, EventFor(g));
    if row.Some? {
      var a, p0 := row.value.actions, p.(proto := row.value.next);
      if |a| == 2 {
        ActsOfTwo(a[0], a[1], p0, now);
      } else if |a| == 3 {
        ActsOfThree(a[0], a[1], a[2], p0, now);
      } else {
        ConnectedRestarts(p, g, now);
      }
    }
  }

  lemma ConnectedRestarts(p: PathState, g: Signal, now: int)
    requires p.proto == Connected && (g == SarmHeard || g == GaveUp)
    ensures Moved(p, OwnPart(p, g, now), g, now)
  {
    var row := Row(Connected, EventFor(g)).value;
    ActsOfFour(row.actions[0], row.actions[1], row.actions[2], row.actions[3], p.(proto := row.next), now);
  }

  lemma TransitionMoves(s: Sys, i: nat, g: Signal, now: int)
    requires i < |s.paths| && g != Quiet && (!Sending(s.paths[i]) ==> s.paths[i].sent == [])
    requires (g == GaveUp ==> Sending(s.paths[i])) && (g == SarmsSpent ==> !Sending(s.paths[i]))
    ensures var r := ProtocolTransition(s, i, EventFor(g), now);
            && |r.paths| == |s.paths| && Moved(s.paths[i], r.paths[i], g, now)
            && forall j | 0 <= j < |s.paths| && j != i :: r.paths[j] == s.paths[j].(conn := r.paths[j].conn)
  {
    var r := ProtocolTransition(s, i, EventFor(g), now);
    RowMoves(s.paths[i], g, now);
    OwnPartIs(s, i, g, now);
    MovedIgnoresConn(s.paths[i], OwnPart(s.paths[i], g, now), r.paths[i].conn, g, now);
  }

  lemma MovedIgnoresConn(p: PathState, q: PathState, conn: ConnectionState, g: Signal, now: int)
    requires Moved(p, q, g, now)
    ensures Moved(p, q.(conn := conn), g, now)
  {
  }

  lemma OwnPartIs(s: Sys, i: nat, g: Signal, now: int)
    requires i < |s.paths| && g != Quiet
    ensures var r := ProtocolTransition(s, i, EventFor(g), now);
            && |r.paths| == |s.paths| && r.paths[i] == OwnPart(s.paths[i], g, now).(conn := r.paths[i].conn)
            && forall j | 0 <= j < |s.paths| && j != i :: r.paths[j] == s.paths[j].(conn := r.paths[j].conn)
  {
    var row := Row(s.paths[i].proto, EventFor(g));
    if row.Some? {
      TransitionIs(s, i, EventFor(g), now);
      RequestAnswers(Entered(s, i, row.value.next), i, Target(row.value.next));
    }
  }

  // ---------------------------------------------------------------- one step, seen from one path

  /** What a path gets from an event: a signal, the TCP connection up or down, an information frame that it takes
      as a sign of life, and the end of the wait after it got connected. */
  datatype Seen = Seen(signal: Signal, up: bool, down: bool, heard: bool, settled: bool)

  /** The NR of the frame is accepted. */
  predicate TakesNR(p: PathState, nr: int) {
    nr == p.nrr || IsNRValid(p.nrr, p.ns, nr)
  }

  predicate BringsBulle(c: PathConf, payload: Payload)
    requires Messages.Uncut(c.bulleReceive, payload)
  {
    exists m :: m in Messages.Extract(c.bulleReceive, payload) && Messages.StartsWithBulle(c.bulleReceive, m)
  }

  /** An information frame with its input open counts as life if its NR is taken, or if its path may deliver and it
      brings a BULLE. */
  predicate Hears(cfg: SysConf, s: Sys, i: nat, f: Frame)
    requires WellSized(cfg, s) && i < |s.paths| && f.INFO? && Expressible(cfg.paths[i], f)
  {
    InputOpen(s.paths[i])
    && (TakesNR(s.paths[i], f.nr) || (CanExtract(s, i) && BringsBulle(cfg.paths[i], f.payload)))
  }

  /** The wait after the connection is over. */
  predicate Settles(cfg: SysConf, p: PathState, now: int) {
    p.proto == Connected && p.lastConnected > 0 && now - p.lastConnected >= cfg.repeatTimeout
  }

  function SeenBy(cfg: SysConf, s: Sys, e: Event, i: nat): Seen
    requires WellSized(cfg, s) && i < |s.paths|
  {
    Seen(SignalOf(cfg, s, e, i),
         e.Connect? && e.i == i,
         (e.TcpLost? || e.Disconnect?) && e.i == i,
         e.Receive? && e.i == i && e.frame.INFO? && Expressible(cfg.paths[i], e.frame) && Hears(cfg, s, i, e.frame),
         e.Init? && e.i == i && Settles(cfg, s.paths[i], e.now))
  }

  predicate SentSarm(p: PathState, q: PathState) {
    exists t :: t in NewFrames(p, q) && t.frame.SARM?
  }

  predicate Resent(p: PathState, q: PathState) {
    exists t :: t in NewFrames(p, q) && IsResend(t)
  }

  /** Protocol state and timers of path p after it saw x at time `now` and became q. */
  predicate Follows(p: PathState, q: PathState, x: Seen, now: int) {
    var g, input, output := x.signal, InputOpen(p), Sending(p);
    && InputOpen(q) == InputAfter(input, g) && Sending(q) == OutputAfter(input, output, g)
    && q.tcp == (x.up || (p.tcp && !x.down && g != SarmsSpent && (g == Silence ==> input || output)))
    && q.lastMsg == (if x.up || x.heard || g == SarmHeard || g == GaveUp || Falls(input, output, g) then now else p.lastMsg)
    && q.lastConnected == (if q.proto == Connected && p.proto != Connected then now
                           else if x.settled then 0 else p.lastConnected)
    && p.h.wire <= q.h.wire
    && q.lastMsgSent == (if x.up || NewFrames(p, q) != [] then now else p.lastMsgSent)
    && q.lastSarm == (if SentSarm(p, q) then now else if Falls(input, output, g) then 0 else p.lastSarm)
    && q.sarmSent == (if Falls(input, output, g) || g == GaveUp || (g == SarmHeard && p.proto == Connected) then 0 else p.sarmSent)
                     + (if SentSarm(p, q) then 1 else 0)
    && (q.sent != [] ==>
          q.lastSent == if p.sent == [] || Resent(p, q) || |q.h.acknowledged| > |p.h.acknowledged| then now
                        else p.lastSent)
  }

  const NOTHING := Seen(Quiet, false, false, false, false)

  lemma SentOnlyFollows(p: PathState, q: PathState, x: Seen, now: int)
    requires SentOnly(p, q, now) && x == NOTHING
    ensures Follows(p, q, x, now)
  {
  }

  lemma MovedFollows(p: PathState, q: PathState, g: Signal, now: int)
    requires Moved(p, q, g, now) && g != Quiet && g != TcpGone
    ensures Follows(p, q, Seen(g, false, false, false, false), now)
  {
    assert NewFrames(p, q) == [];
  }

}
