/** Every step follows the signals: what each event does to each path. */
module PathEvents {
  import opened HnzTypes
  import opened Modulo8
  import opened Link
  import opened LinkInvariants
  import opened HnzSystem
  import opened Arbitration
  import opened SystemInvariants
  import opened PathSteps
  import Messages

  /** All that is needed of the invariants. */
  predicate Orderly(p: PathState) {
    (!Sending(p) ==> p.sent == []) && 0 <= p.nrr < 8
  }

  lemma InvIsOrderly(cfg: SysConf, s: Sys, i: nat)
    requires SysInv(cfg, s) && i < |s.paths|
    ensures Ready(cfg, s) && Orderly(s.paths[i])
  {
    InvIsReady(cfg, s);
    assert LinkInv(cfg.paths[i], s.paths[i]);
  }

  // ---------------------------------------------------------------- the link layer of one path

  /** Messages were sent for the first time or acknowledged, and RRs sent: composable. */
  predicate LinkStep(p: PathState, q: PathState, now: int) {
    && q.proto == p.proto && q.tcp == p.tcp && q.sarmSent == p.sarmSent && q.lastSarm == p.lastSarm
    && q.lastConnected == p.lastConnected && p.h.wire <= q.h.wire
    && (forall t | t in NewFrames(p, q) :: !t.frame.SARM? && !IsResend(t))
    && q.lastMsgSent == (if NewFrames(p, q) != [] then now else p.lastMsgSent)
    && |q.h.acknowledged| >= |p.h.acknowledged|
    && (p.sent != [] && q.sent == [] ==> |q.h.acknowledged| > |p.h.acknowledged|)
    && (q.sent != [] ==>
          q.lastSent == if p.sent == [] || |q.h.acknowledged| > |p.h.acknowledged| then now else p.lastSent)
  }

  lemma TwoLinkSteps(p: PathState, m: PathState, q: PathState, now: int)
    requires LinkStep(p, m, now) && LinkStep(m, q, now)
    ensures LinkStep(p, q, now)
  {
    assert NewFrames(p, q) == NewFrames(p, m) + NewFrames(m, q);
  }

  lemma SendingIsLinkStep(p: PathState, q: PathState, now: int)
    requires SentOnly(p, q, now)
    ensures LinkStep(p, q, now)
  {
  }

  lemma PopIsLinkStep(p: PathState, nr: int, now: int)
    requires 0 <= nr < 8 && 0 <= p.nrr < 8 && nr != p.nrr
    ensures LinkStep(p, Pop(p, nr, now), now) && Pop(p, nr, now).lastMsg == p.lastMsg
  {
    assert NewFrames(p, Pop(p, nr, now)) == [];
    assert NROffset(p.nrr, nr) >= 1;
  }

  lemma AckIsLinkStep(c: PathConf, p: PathState, nr: int, repetition: bool, now: int)
    requires WaitingSendable(c, p) && 0 <= nr < 8 && 0 <= p.nrr < 8
    ensures var q := ReceivedRR(c, p, nr, repetition, now).state; LinkStep(p, q, now) && q.lastMsg == p.lastMsg
  {
    SentNothing(p, p, now);
    SendingIsLinkStep(p, p, now);
    if nr != p.nrr {
      var m := Pop(p, nr, now);
      PopIsLinkStep(p, nr, now);
      RefillSends(c, m, now);
      SendingIsLinkStep(m, Refill(c, m, now), now);
      TwoLinkSteps(p, m, Refill(c, m, now), now);
    }
  }

  lemma AnswerIsLinkStep(p: PathState, repetition: bool, ns: int, payload: Payload, handedUp: bool, now: int)
    ensures var q := Acknowledge(p, repetition, ns, payload, handedUp, now); LinkStep(p, q, now) && q.lastMsg == now
  {
    var q := Acknowledge(p, repetition, ns, payload, handedUp, now);
    if ns == p.nr || repetition {
      assert NewFrames(p, q) == [q.h.wire[|p.h.wire|]];
    } else {
      assert NewFrames(p, q) == [];
    }
  }

  lemma LinkStepFollows(p: PathState, q: PathState, heard: bool, now: int)
    requires LinkStep(p, q, now) && q.lastMsg == (if heard then now else p.lastMsg)
    ensures Follows(p, q, NOTHING.(heard := heard), now)
  {
  }

  // ---------------------------------------------------------------- frames

  lemma SarmFollows(cfg: SysConf, s: Sys, i: nat, now: int)
    requires WellSized(cfg, s) && i < |s.paths| && Orderly(s.paths[i])
    ensures var r := ReceivedSarmFrame(cfg, s, i, now);
            Follows(s.paths[i], r.paths[i], SeenBy(cfg, s, Receive(i, SARM, now), i), now)
  {
    var p := s.paths[i];
    var p1 := SendUA(p, now);
    assert NewFrames(p, p1) == [p1.h.wire[|p.h.wire|]];
    if now - p.lastConnected > cfg.paths[i].repeatTimeout {
      TransitionMoves(SetPath(s, i, p1), i, SarmHeard, now);
      UaThenMoved(p, ReceivedSarmFrame(cfg, s, i, now).paths[i], now);
    }
  }

  lemma UaThenMoved(p: PathState, q: PathState, now: int)
    requires Moved(SendUA(p, now), q, SarmHeard, now)
    ensures Follows(p, q, NOTHING.(signal := SarmHeard), now)
  {
    assert NewFrames(p, q) == [q.h.wire[|p.h.wire|]];
  }

  lemma UaFollows(cfg: SysConf, s: Sys, i: nat, now: int)
    requires WellSized(cfg, s) && i < |s.paths| && Orderly(s.paths[i])
    ensures var r := ProtocolTransition(s, i, ReceivedUa, now);
            Follows(s.paths[i], r.paths[i], SeenBy(cfg, s, Receive(i, UA, now), i), now)
  {
    TransitionMoves(s, i, UaHeard, now);
    MovedFollows(s.paths[i], ProtocolTransition(s, i, ReceivedUa, now).paths[i], UaHeard, now);
  }

  lemma RRFollows(cfg: SysConf, s: Sys, i: nat, nr: int, final: bool, now: int)
    requires Ready(cfg, s) && i < |s.paths| && Orderly(s.paths[i]) && 0 <= nr < 8
    ensures var r := FrameReceived(cfg, s, i, RR(nr, final), now);
            Follows(s.paths[i], r.paths[i], SeenBy(cfg, s, Receive(i, RR(nr, final), now), i), now)
  {
    var p := s.paths[i];
    SentNothing(p, p, now);
    SentOnlyFollows(p, p, NOTHING, now);
    AckIsLinkStep(cfg.paths[i], p, nr, final, now);
    LinkStepFollows(p, ReceivedRR(cfg.paths[i], p, nr, final, now).state, false, now);
  }

  lemma BulleIsLinkStep(c: PathConf, p: PathState, ms: seq<Payload>, now: int)
    ensures LinkStep(p, NoteBulle(c, p, ms, now), now)
  {
    assert NewFrames(p, NoteBulle(c, p, ms, now)) == [];
  }

  lemma SendRRIsLinkStep(c: PathConf, p: PathState, f: Frame, handedUp: bool, now: int)
    requires WaitingSendable(c, p) && Orderly(p) && f.INFO? && 0 <= f.nr < 8
    ensures var q := SendRR(c, p, f.poll, f.ns, f.nr, f.payload, handedUp, now).state;
            LinkStep(p, q, now) && q.lastMsg == if TakesNR(p, f.nr) then now else p.lastMsg
  {
    var o := ReceivedRR(c, p, f.nr, false, now);
    AckIsLinkStep(c, p, f.nr, false, now);
    if o.ok {
      AnswerIsLinkStep(o.state, f.poll, f.ns, f.payload, handedUp, now);
      TwoLinkSteps(p, o.state, Acknowledge(o.state, f.poll, f.ns, f.payload, handedUp, now), now);
    }
  }

  /** The path that receives an information frame, before its messages are handled. */
  lemma InfoIsLinkStep(cfg: SysConf, s: Sys, i: nat, f: Frame, now: int)
    requires Ready(cfg, s) && i < |s.paths| && Orderly(s.paths[i]) && f.INFO? && Expressible(cfg.paths[i], f)
    requires s.paths[i].proto != Connection
    ensures var q := AnswerInfo(cfg, s, i, f, now).0.paths[i];
            LinkStep(s.paths[i], q, now) && q.lastMsg == (if Hears(cfg, s, i, f) then now else s.paths[i].lastMsg)
  {
    var c, p := cfg.paths[i], s.paths[i];
    if p.proto == OutputConnected {
      SentNothing(p, p, now);
      SendingIsLinkStep(p, p, now);
    } else {
      var ms := Extracted(cfg, s, i, f.payload);
      var p1 := NoteBulle(c, p, ms, now);
      BulleIsLinkStep(c, p, ms, now);
      SendRRIsLinkStep(c, p1, f, CanExtract(s, i), now);
      TwoLinkSteps(p, p1, SendRR(c, p1, f.poll, f.ns, f.nr, f.payload, CanExtract(s, i), now).state, now);
    }
  }

  lemma InfoFollows(cfg: SysConf, s: Sys, i: nat, f: Frame, now: int)
    requires Ready(cfg, s) && i < |s.paths| && Orderly(s.paths[i]) && f.INFO? && Expressible(cfg.paths[i], f)
    ensures var r := FrameReceived(cfg, s, i, f, now);
            Follows(s.paths[i], r.paths[i], SeenBy(cfg, s, Receive(i, f, now), i), now)
  {
    var p := s.paths[i];
    if p.proto == Connection {
      SentNothing(p, p, now);
      SentOnlyFollows(p, p, NOTHING, now);
    } else {
      InfoIsLinkStep(cfg, s, i, f, now);
      var (s1, ms) := AnswerInfo(cfg, s, i, f, now);
      var r := HandleMessages(cfg, s1, ms, now);
      MessagesSend(cfg, s1, ms, now);
      SendingIsLinkStep(s1.paths[i], r.paths[i], now);
      TwoLinkSteps(p, s1.paths[i], r.paths[i], now);
      LinkStepFollows(p, r.paths[i], Hears(cfg, s, i, f), now);
    }
  }

  // ---------------------------------------------------------------- timers

  lemma SarmTurnFollows(cfg: SysConf, s: Sys, i: nat, now: int)
    requires WellSized(cfg, s) && i < |s.paths| && Orderly(s.paths[i]) && !Sending(s.paths[i])
    ensures var q := SarmTurn(cfg, s, i, now).paths[i];
            var g := if s.paths[i].sarmSent == cfg.paths[i].maxSarm then SarmsSpent else Quiet;
            Follows(s.paths[i], q, NOTHING.(signal := g), now)
  {
    var p := s.paths[i];
    if p.sarmSent == cfg.paths[i].maxSarm {
      TransitionMoves(s, i, SarmsSpent, now);
      MovedThenSarm(p, ProtocolTransition(s, i, MaxSarmSent, now).paths[i], now);
    } else {
      assert NewFrames(p, SendSARM(p, now)) == [SendSARM(p, now).h.wire[|p.h.wire|]];
    }
  }

  lemma MovedThenSarm(p: PathState, m: PathState, now: int)
    requires Moved(p, m, SarmsSpent, now) && !Sending(p)
    ensures Follows(p, SendSARM(m, now), NOTHING.(signal := SarmsSpent), now)
  {
    assert NewFrames(p, SendSARM(m, now)) == [SendSARM(m, now).h.wire[|p.h.wire|]];
  }

  lemma BulleSends(c: PathConf, p: PathState, now: int)
    ensures SentOnly(p, SendDueBulle(c, p, now), now)
  {
    SendInfoSends(c, p, [c.bulleSend.0, c.bulleSend.1], now);
    SentNothing(p, p, now);
  }

  lemma SentThenMoved(p: PathState, m: PathState, q: PathState, now: int)
    requires SentOnly(p, m, now) && Moved(m, q, Silence, now) && p.proto == Connected
    ensures Follows(p, q, NOTHING.(signal := Silence), now)
  {
    assert NewFrames(p, q) == NewFrames(p, m);
  }

  lemma ManageFollows(cfg: SysConf, s: Sys, i: nat, now: int)
    requires WellSized(cfg, s) && i < |s.paths| && Orderly(s.paths[i])
    ensures var r := ManageProtocolState(cfg, s, i, now);
            Follows(s.paths[i], r.paths[i], SeenBy(cfg, s, Manage(i, now), i), now)
  {
    if !Sending(s.paths[i]) {
      IdleTurnFollows(cfg, s, i, now);
    } else if Silent(cfg.paths[i], s.paths[i], now) && s.paths[i].proto == Connected {
      SilentTurnFollows(cfg, s, i, now);
    } else {
      BulleTurnFollows(cfg, s, i, now);
    }
  }

  lemma IdleTurnFollows(cfg: SysConf, s: Sys, i: nat, now: int)
    requires WellSized(cfg, s) && i < |s.paths| && Orderly(s.paths[i]) && !Sending(s.paths[i])
    ensures var r := ManageProtocolState(cfg, s, i, now);
            Follows(s.paths[i], r.paths[i], SeenBy(cfg, s, Manage(i, now), i), now)
  {
    var p := s.paths[i];
    if Silent(cfg.paths[i], p, now) {
      TransitionMoves(s, i, Silence, now);
      MovedFollows(p, ProtocolTransition(s, i, ToRecv, now).paths[i], Silence, now);
    } else if SarmDue(cfg.paths[i], p, now) {
      SarmTurnFollows(cfg, s, i, now);
    } else {
      SentNothing(p, p, now);
      SentOnlyFollows(p, p, NOTHING, now);
    }
  }

  lemma SilentTurnFollows(cfg: SysConf, s: Sys, i: nat, now: int)
    requires WellSized(cfg, s) && i < |s.paths| && s.paths[i].proto == Connected && Silent(cfg.paths[i], s.paths[i], now)
    ensures var r := ManageProtocolState(cfg, s, i, now);
            Follows(s.paths[i], r.paths[i], SeenBy(cfg, s, Manage(i, now), i), now)
  {
    var p := s.paths[i];
    var p1 := SendDueBulle(cfg.paths[i], p, now);
    BulleSends(cfg.paths[i], p, now);
    TransitionMoves(SetPath(s, i, p1), i, Silence, now);
    SentThenMoved(p, p1, ProtocolTransition(SetPath(s, i, p1), i, ToRecv, now).paths[i], now);
  }

  /** Silence changes nothing where only the output is open. */
  lemma SentOnlyIsQuiet(p: PathState, q: PathState, g: Signal, now: int)
    requires SentOnly(p, q, now) && (g == Quiet || (g == Silence && p.proto == OutputConnected))
    ensures Follows(p, q, NOTHING.(signal := g), now)
  {
  }

  lemma BulleTurnFollows(cfg: SysConf, s: Sys, i: nat, now: int)
    requires WellSized(cfg, s) && i < |s.paths| && Sending(s.paths[i])
    requires !(Silent(cfg.paths[i], s.paths[i], now) && s.paths[i].proto == Connected)
    ensures var r := ManageProtocolState(cfg, s, i, now);
            Follows(s.paths[i], r.paths[i], SeenBy(cfg, s, Manage(i, now), i), now)
  {
    var p := s.paths[i];
    BulleSends(cfg.paths[i], p, now);
    var g := if Silent(cfg.paths[i], p, now) then Silence else Quiet;
    SentOnlyIsQuiet(p, SendDueBulle(cfg.paths[i], p, now), g, now);
  }

  lemma RepeatFollows(cfg: SysConf, s: Sys, i: nat, current: nat, now: int)
    requires WellSized(cfg, s) && i < |s.paths| && Orderly(s.paths[i])
    ensures var r := CheckRepeat(cfg, s, i, current, now);
            Follows(s.paths[i], r.paths[i], SeenBy(cfg, s, Repeat(i, current, now), i), now)
  {
    var p := s.paths[i];
    if !Overdue(cfg, p, current) {
      SentNothing(p, p, now);
      SentOnlyFollows(p, p, NOTHING, now);
    } else if p.repeat >= cfg.paths[i].repeatMax {
      TransitionMoves(s, i, GaveUp, now);
      MovedFollows(p, ProtocolTransition(s, i, MaxSend, now).paths[i], GaveUp, now);
    } else {
      ResendFollows(p, now);
    }
  }

  lemma ResendFollows(p: PathState, now: int)
    requires p.sent != []
    ensures Follows(p, Requeue(SendBackInfo(p, now)), NOTHING, now)
  {
    var q := Requeue(SendBackInfo(p, now));
    assert NewFrames(p, q) == [q.h.wire[|p.h.wire|]];
    assert IsResend(q.h.wire[|p.h.wire|]) && q.h.wire[|p.h.wire|] in NewFrames(p, q);
  }

  lemma InitMessagesSend(cfg: SysConf, s: Sys, i: nat, cal: Calendar, now: int)
    requires WellSized(cfg, s) && i < |s.paths|
    ensures AllSentOnly(s, SendGeneralInterrogation(cfg, SendTime(cfg, SendDate(cfg, s, i, cal, now), i, cal, now), i, now),
                        now)
  {
    var s1 := SendDate(cfg, s, i, cal, now);
    var s2 := SendTime(cfg, s1, i, cal, now);
    var s3 := SendGeneralInterrogation(cfg, s2, i, now);
    SendInfoSends(cfg.paths[i], s.paths[i], DateMessage(cal), now);
    OnePathSends(s, s1, i, now);
    SendInfoSends(cfg.paths[i], s1.paths[i], TimeMessage(cal, now), now);
    OnePathSends(s1, s2, i, now);
    SendGiSends(cfg, s2, i, now);
    AllSentTwice(s, s1, s2, now);
    AllSentTwice(s, s2, s3, now);
  }

  lemma SentThenSettled(p: PathState, m: PathState, now: int)
    requires SentOnly(p, m, now) && p.proto == Connected
    ensures Follows(p, m.(lastConnected := 0), NOTHING.(settled := true), now)
  {
    assert NewFrames(p, m.(lastConnected := 0)) == NewFrames(p, m);
  }

  lemma InitFollows(cfg: SysConf, s: Sys, i: nat, cal: Calendar, now: int)
    requires WellSized(cfg, s) && i < |s.paths|
    ensures var r := CheckInit(cfg, s, i, cal, now);
            Follows(s.paths[i], r.paths[i], SeenBy(cfg, s, Init(i, cal, now), i), now)
  {
    var p := s.paths[i];
    SentNothing(p, p, now);
    if !Settles(cfg, p, now) {
      SentOnlyFollows(p, p, NOTHING, now);
    } else if p.conn == Active && s.sendInit {
      var m := SendGeneralInterrogation(cfg, SendTime(cfg, SendDate(cfg, s, i, cal, now), i, cal, now), i, now);
      InitMessagesSend(cfg, s, i, cal, now);
      SentThenSettled(p, m.paths[i], now);
    } else {
      SentThenSettled(p, p, now);
    }
  }

  lemma SendGiLeavesOthers(cfg: SysConf, s: Sys, i: nat, now: int, j: nat)
    requires WellSized(cfg, s) && i < |s.paths| && j < |s.paths| && j != i
    ensures SendGeneralInterrogation(cfg, s, i, now).paths[j] == s.paths[j]
  {
  }

  lemma InitLeavesOthers(cfg: SysConf, s: Sys, i: nat, cal: Calendar, now: int, j: nat)
    requires WellSized(cfg, s) && i < |s.paths| && j < |s.paths| && j != i
    ensures CheckInit(cfg, s, i, cal, now).paths[j] == s.paths[j]
  {
    if Settles(cfg, s.paths[i], now) && s.paths[i].conn == Active && s.sendInit {
      SendGiLeavesOthers(cfg, SendTime(cfg, SendDate(cfg, s, i, cal, now), i, cal, now), i, now, j);
    }
  }

  // ---------------------------------------------------------------- every event, every path

  lemma SameStateFollows(p: PathState, q: PathState, now: int)
    requires q == p.(conn := q.conn)
    ensures Follows(p, q, NOTHING, now)
  {
    SentNothing(p, q, now);
    SentOnlyFollows(p, q, NOTHING, now);
  }

  predicate PathEvent(e: Event) {
    e.Connect? || e.TcpLost? || e.Disconnect? || e.Receive? || e.Manage? || e.Repeat? || e.Init?
  }

  predicate OwnEvent(e: Event, i: nat) {
    PathEvent(e) && e.i == i
  }

  lemma ConnectionEventFollows(cfg: SysConf, s: Sys, e: Event, i: nat)
    requires Ready(cfg, s) && Concerns(s, e) && (e.Connect? || e.TcpLost? || e.Disconnect?) && e.i == i
    requires Orderly(s.paths[i])
    ensures i < |Effect(cfg, s, e).paths|
    ensures Follows(s.paths[i], Effect(cfg, s, e).paths[i], SeenBy(cfg, s, e, i), TimeOf(e))
  {
    var p, q := s.paths[i], Effect(cfg, s, e).paths[i];
    if e.Disconnect? {
      TransitionMoves(s, i, TcpGone, e.now);
    }
    assert NewFrames(p, q) == [];
  }

  lemma FrameFollows(cfg: SysConf, s: Sys, i: nat, f: Frame, now: int)
    requires Ready(cfg, s) && i < |s.paths| && Orderly(s.paths[i])
    ensures i < |Effect(cfg, s, Receive(i, f, now)).paths|
    ensures Follows(s.paths[i], Effect(cfg, s, Receive(i, f, now)).paths[i], SeenBy(cfg, s, Receive(i, f, now), i), now)
  {
    if !Expressible(cfg.paths[i], f) {
      SameStateFollows(s.paths[i], s.paths[i], now);
    } else {
      match f
      case UA => UaFollows(cfg, s, i, now);
      case SARM => SarmFollows(cfg, s, i, now);
      case RR(nr, final) => RRFollows(cfg, s, i, nr, final, now);
      case INFO(_, _, _, _) => InfoFollows(cfg, s, i, f, now);
    }
  }

  lemma OwnEventFollows(cfg: SysConf, s: Sys, e: Event, i: nat)
    requires Ready(cfg, s) && Concerns(s, e) && OwnEvent(e, i) && Orderly(s.paths[i])
    ensures i < |Effect(cfg, s, e).paths|
    ensures Follows(s.paths[i], Effect(cfg, s, e).paths[i], SeenBy(cfg, s, e, i), TimeOf(e))
  {
    match e
    case Receive(_, f, now) => FrameFollows(cfg, s, i, f, now);
    case Manage(_, now) => ManageFollows(cfg, s, i, now);
    case Repeat(_, current, now) => RepeatFollows(cfg, s, i, current, now);
    case Init(_, cal, now) => InitFollows(cfg, s, i, cal, now);
    case _ => ConnectionEventFollows(cfg, s, e, i);
  }

  /** An event of path i touches another path j only through the arbiter and the messages it brings. */
  lemma OtherPathSends(cfg: SysConf, s: Sys, e: Event, i: nat, j: nat)
    requires Ready(cfg, s) && Concerns(s, e) && OwnEvent(e, i) && j < |s.paths| && j != i
    ensures j < |Effect(cfg, s, e).paths|
    ensures SentOnly(s.paths[j], Effect(cfg, s, e).paths[j], TimeOf(e))
  {
    if e.Receive? {
      FrameLeavesOthers(cfg, s, i, e.frame, e.now, j);
    } else {
      TimerLeavesOthers(cfg, s, e, i, j);
      SentNothing(s.paths[j], Effect(cfg, s, e).paths[j], TimeOf(e));
    }
  }

  lemma TimerLeavesOthers(cfg: SysConf, s: Sys, e: Event, i: nat, j: nat)
    requires Ready(cfg, s) && Concerns(s, e) && OwnEvent(e, i) && !e.Receive? && j < |s.paths| && j != i
    ensures j < |Effect(cfg, s, e).paths|
    ensures var q := Effect(cfg, s, e).paths[j]; q == s.paths[j].(conn := q.conn)
  {
    match e
    case Disconnect(_, now) => OwnPartIs(s, i, TcpGone, now);
    case Manage(_, now) => ManageLeavesOthers(cfg, s, i, now, j);
    case Repeat(_, _, now) => OwnPartIs(s, i, GaveUp, now);
    case Init(_, cal, now) => InitLeavesOthers(cfg, s, i, cal, now, j);
    case _ =>
  }

  lemma FrameLeavesOthers(cfg: SysConf, s: Sys, i: nat, f: Frame, now: int, j: nat)
    requires Ready(cfg, s) && i < |s.paths| && j < |s.paths| && j != i
    ensures SentOnly(s.paths[j], Effect(cfg, s, Receive(i, f, now)).paths[j], now)
  {
    SentNothing(s.paths[j], s.paths[j], now);
    if Expressible(cfg.paths[i], f) {
      match f
      case UA =>
        OwnPartIs(s, i, UaHeard, now);
        SentNothing(s.paths[j], ProtocolTransition(s, i, ReceivedUa, now).paths[j], now);
      case SARM => SarmLeavesOthers(cfg, s, i, now, j);
      case INFO(_, _, _, _) => InfoLeavesOthers(cfg, s, i, f, now, j);
      case _ =>
    }
  }

  lemma SarmLeavesOthers(cfg: SysConf, s: Sys, i: nat, now: int, j: nat)
    requires Ready(cfg, s) && i < |s.paths| && j < |s.paths| && j != i
    ensures SentOnly(s.paths[j], FrameReceived(cfg, s, i, SARM, now).paths[j], now)
  {
    var s1 := SetPath(s, i, SendUA(s.paths[i], now));
    OwnPartIs(s1, i, SarmHeard, now);
    SentNothing(s.paths[j], s.paths[j], now);
    SentNothing(s.paths[j], ProtocolTransition(s1, i, ReceivedSarm, now).paths[j], now);
  }

  lemma InfoLeavesOthers(cfg: SysConf, s: Sys, i: nat, f: Frame, now: int, j: nat)
    requires Ready(cfg, s) && i < |s.paths| && j < |s.paths| && j != i && f.INFO? && Expressible(cfg.paths[i], f)
    ensures SentOnly(s.paths[j], FrameReceived(cfg, s, i, f, now).paths[j], now)
  {
    SentNothing(s.paths[j], s.paths[j], now);
    var (s1, ms) := AnswerInfo(cfg, s, i, f, now);
    MessagesSend(cfg, s1, ms, now);
  }

  lemma ManageLeavesOthers(cfg: SysConf, s: Sys, i: nat, now: int, j: nat)
    requires WellSized(cfg, s) && i < |s.paths| && j < |s.paths| && j != i
    ensures var q := ManageProtocolState(cfg, s, i, now).paths[j]; q == s.paths[j].(conn := q.conn)
  {
    OwnPartIs(s, i, SarmsSpent, now);
    OwnPartIs(s, i, Silence, now);
    OwnPartIs(SetPath(s, i, SendDueBulle(cfg.paths[i], s.paths[i], now)), i, Silence, now);
  }

  /** Main step: whatever the event, every path follows what it has seen. */
  lemma StepFollows(cfg: SysConf, s: Sys, e: Event, j: nat)
    requires SysInv(cfg, s) && !s.crashed && j < |s.paths|
    ensures j < |Step(cfg, s, e).paths|
    ensures Follows(s.paths[j], Step(cfg, s, e).paths[j], SeenBy(cfg, s, e, j), TimeOf(e))
  {
    InvIsOrderly(cfg, s, j);
    if !Concerns(s, e) {
      SameStateFollows(s.paths[j], s.paths[j], TimeOf(e));
    } else if OwnEvent(e, j) {
      OwnEventFollows(cfg, s, e, j);
    } else {
      OtherEventFollows(cfg, s, e, j);
    }
  }

  lemma OtherEventFollows(cfg: SysConf, s: Sys, e: Event, j: nat)
    requires Ready(cfg, s) && Concerns(s, e) && j < |s.paths| && !OwnEvent(e, j)
    ensures j < |Effect(cfg, s, e).paths|
    ensures Follows(s.paths[j], Effect(cfg, s, e).paths[j], SeenBy(cfg, s, e, j), TimeOf(e))
  {
    var q := Effect(cfg, s, e).paths[j];
    if SendsAtMost(e) {
      EventSends(cfg, s, e);
      SentOnlyFollows(s.paths[j], q, SeenBy(cfg, s, e, j), TimeOf(e));
    } else if e.Stop? {
      SameStateFollows(s.paths[j], q, 0);
    } else {
      OtherPathSends(cfg, s, e, e.i, j);
      SentOnlyFollows(s.paths[j], q, SeenBy(cfg, s, e, j), TimeOf(e));
    }
  }
}
