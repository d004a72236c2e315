/** Requests for a General Interrogation: what starts one, what its status is, when it times out. */
module GiRequests {
  import opened HnzTypes
  import opened GiLog
  import opened Link
  import opened LinkInvariants
  import opened HnzSystem
  import opened Arbitration
  import opened SystemInvariants
  import opened Theorems
  import opened PathSteps
  import opened PathEvents
  import opened Crashes
  import opened GiEnds
  import GiResult
  import Messages

  // ---------------------------------------------------------------- the status, told from the history

  /** The end of a GI that the last expected address made. */
  predicate EndsWell(cfg: SysConf, log: seq<GiMark>) {
    log != [] && log[|log| - 1].Brought? && Closing(cfg, log[|log| - 1].block)
  }

  /** Started by the first request, in progress from the first answer to the end, then finished or failed. The loss of
      the active path does not show. */
  function StatusOf(cfg: SysConf, log: seq<GiMark>): GiStatus {
    if log == [] then GiIdle
    else
      var init := log[..|log| - 1];
      match log[|log| - 1]
      case Requested(sent) =>
        if sent && (SentSince(init) == 0 || StatusOf(cfg, init) != GiInProgress) then GiStarted else StatusOf(cfg, init)
      case Brought(_) => if StatusOf(cfg, init) == GiStarted then GiInProgress else StatusOf(cfg, init)
      case GiEnded(_) => if EndsWell(cfg, init) then GiFinished else GiFailed
      case _ => StatusOf(cfg, init)
  }

  /** The status is what the history says, and a delayed GI does not wait any longer once the running one has
      ended. */
  predicate StatusFits(cfg: SysConf, s: Sys) {
    && s.giRepeat == SentSince(s.giLog) && s.fledge.giStatus == StatusOf(cfg, s.giLog) && !EndsWell(cfg, s.giLog)
    && (s.giLog != [] && s.giLog[|s.giLog| - 1].GiEnded? && !s.crashed ==> !s.fledge.giInQueue)
  }

  predicate SentIn(marks: seq<GiMark>) {
    Requested(true) in marks
  }

  /** A part of a step: the history grows, and the time of the GI starts again with each request that is sent. */
  predicate GiMoves(cfg: SysConf, s: Sys, r: Sys, now: int) {
    && s.giLog <= r.giLog
    && r.giStart == (if SentIn(r.giLog[|s.giLog|..]) then now else s.giStart)
    && (StatusFits(cfg, s) ==> StatusFits(cfg, r))
  }

  lemma SliceOfTwo(a: seq<GiMark>, b: seq<GiMark>, c: seq<GiMark>)
    requires a <= b && b <= c
    ensures a <= c && c[|a|..] == b[|a|..] + c[|b|..]
  {
  }

  lemma GiMovesTwice(cfg: SysConf, s: Sys, m: Sys, r: Sys, now: int)
    requires GiMoves(cfg, s, m, now) && GiMoves(cfg, m, r, now)
    ensures GiMoves(cfg, s, r, now)
  {
    SliceOfTwo(s.giLog, m.giLog, r.giLog);
  }

  lemma GiStays(cfg: SysConf, s: Sys, r: Sys, now: int)
    requires r.giLog == s.giLog && r.giStart == s.giStart && r.giRepeat == s.giRepeat
    requires r.fledge.giStatus == s.fledge.giStatus && r.crashed == s.crashed
    requires r.fledge.giInQueue ==> s.fledge.giInQueue
    ensures GiMoves(cfg, s, r, now)
  {
    assert r.giLog[|s.giLog|..] == [];
  }

  /** One more mark. */
  lemma OneMark(cfg: SysConf, s: Sys, r: Sys, mark: GiMark, now: int)
    requires r.giLog == s.giLog + [mark] && r.giStart == (if mark == Requested(true) then now else s.giStart)
    requires StatusFits(cfg, s) ==> StatusFits(cfg, r)
    ensures GiMoves(cfg, s, r, now)
  {
    assert r.giLog[|s.giLog|..] == [mark];
  }

  lemma SendGiMoves(cfg: SysConf, s: Sys, i: nat, now: int)
    requires WellSized(cfg, s) && i < |s.paths| && s.paths[i].proto == Connected
    ensures GiMoves(cfg, s, SendGeneralInterrogation(cfg, s, i, now), now)
  {
    var r := SendGeneralInterrogation(cfg, s, i, now);
    var mark := Requested(|s.paths[i].sent| < cfg.paths[i].ratio);
    assert r.giLog == s.giLog + [mark];
    SentMarkMoves(cfg, s, r, mark.sent, now);
  }

  lemma SentMarkMoves(cfg: SysConf, s: Sys, r: Sys, sent: bool, now: int)
    requires r.giLog == s.giLog + [Requested(sent)] && r.crashed == s.crashed
    requires r.giStart == (if sent then now else s.giStart) && r.giRepeat == s.giRepeat + (if sent then 1 else 0)
    requires r.fledge.giStatus == (if sent && (s.giRepeat == 0 || s.fledge.giStatus != GiInProgress) then GiStarted
                                   else s.fledge.giStatus)
    ensures GiMoves(cfg, s, r, now)
  {
    assert (s.giLog + [Requested(sent)])[..|s.giLog|] == s.giLog;
    OneMark(cfg, s, r, Requested(sent), now);
  }

  /** The active path, if there is one, is CONNECTED. */
  predicate ActiveConnected(s: Sys) {
    s.active.Some? ==> s.active.value < |s.paths| && s.paths[s.active.value].proto == Connected
  }

  lemma RequestMoves(cfg: SysConf, s: Sys, now: int)
    requires WellSized(cfg, s) && ActiveConnected(s) && !s.crashed && StatusFits(cfg, s)
    ensures GiMoves(cfg, s, RequestGi(cfg, s, now), now)
  {
    if s.active.None? {
      GiStays(cfg, s, s, now);
    } else if s.fledge.giStatus == GiStarted || s.fledge.giStatus == GiInProgress {
      assert s.giLog[|s.giLog|..] == [];
    } else {
      SendGiMoves(cfg, s, s.active.value, now);
    }
  }

  // ---------------------------------------------------------------- the end of a GI

  /** The GI is closed, a delayed one still to be sent. */
  function Closed(cfg: SysConf, s: Sys, success: bool): Sys {
    CloseGi(cfg, s, success).(fledge := CloseGi(cfg, s, success).fledge.(giInQueue := false))
  }

  lemma CloseMoves(cfg: SysConf, s: Sys, success: bool, now: int)
    requires !s.crashed && (EndsWell(cfg, s.giLog) <==> success)
    ensures var r := Closed(cfg, s, success);
            s.giLog <= r.giLog && r.giStart == s.giStart && !SentIn(r.giLog[|s.giLog|..]) && StatusFits(cfg, r)
  {
    var mark := GiEnded(GiResult.Unfiltered(cfg.tsAddresses, s.fledge.giReceived));
    assert Closed(cfg, s, success).giLog[|s.giLog|..] == [mark];
    assert (s.giLog + [mark])[..|s.giLog|] == s.giLog;
  }

  lemma SendIgnoresQueue(cfg: SysConf, s: Sys, i: nat, now: int)
    requires WellSized(cfg, s) && i < |s.paths|
    ensures var r := SendGeneralInterrogation(cfg, s, i, now);
            r.(fledge := r.fledge.(giInQueue := false))
            == SendGeneralInterrogation(cfg, s.(fledge := s.fledge.(giInQueue := false)), i, now)
  {
  }

  /** The end of a GI, made by the last expected address or by a timeout; a delayed GI follows at once. */
  lemma GiCompletedMoves(cfg: SysConf, s: Sys, success: bool, now: int)
    requires WellSized(cfg, s) && ActiveConnected(s) && !s.crashed && (EndsWell(cfg, s.giLog) <==> success)
    ensures var r := GiCompleted(cfg, s, success, now);
            && s.giLog <= r.giLog && r.giStart == (if SentIn(r.giLog[|s.giLog|..]) then now else s.giStart)
            && StatusFits(cfg, r)
  {
    var c := Closed(cfg, s, success);
    CloseMoves(cfg, s, success, now);
    GiCompletedIs(cfg, s, success, now);
    if s.fledge.giInQueue && s.active.Some? {
      SendGiMoves(cfg, c, s.active.value, now);
      var r := SendGeneralInterrogation(cfg, c, s.active.value, now);
      SliceOfTwo(s.giLog, c.giLog, r.giLog);
    }
  }

  lemma GiCompletedIs(cfg: SysConf, s: Sys, success: bool, now: int)
    requires WellSized(cfg, s)
    ensures var c := Closed(cfg, s, success);
            GiCompleted(cfg, s, success, now)
            == if !s.fledge.giInQueue then c
               else if s.active.None? then CloseGi(cfg, s, success).(crashed := true)
               else SendGeneralInterrogation(cfg, c, s.active.value, now)
  {
    if s.fledge.giInQueue && s.active.Some? {
      SendIgnoresQueue(cfg, CloseGi(cfg, s, success), s.active.value, now);
    }
  }

  lemma NoteIs(cfg: SysConf, s: Sys, block: Byte)
    requires ListOpen(cfg, s) && !s.crashed
    ensures var r := NoteTscg(cfg, s, block);
            && s.giLog <= r.giLog && r.giLog[|s.giLog|..] == [Brought(block)] && r.giStart == s.giStart
            && (LastIsIn(cfg, r.fledge.giReceived) <==> Closing(cfg, block))
            && (EndsWell(cfg, r.giLog) <==> Closing(cfg, block))
            && (StatusFits(cfg, s) && !Closing(cfg, block) ==> StatusFits(cfg, r))
  {
    var r := NoteTscg(cfg, s, block);
    ClosingBlock(cfg, s.fledge.giReceived, GiResult.TscgReceived(cfg.tsAddresses, block));
    assert r.giLog[..|s.giLog|] == s.giLog && r.giLog[..|r.giLog| - 1] == s.giLog;
  }

  lemma TscgMoves(cfg: SysConf, s: Sys, m: Payload, now: int)
    requires WellSized(cfg, s) && ActiveConnected(s) && !s.crashed && |m| == 6 && ListOpen(cfg, s) && StatusFits(cfg, s)
    ensures GiMoves(cfg, s, HandleTscg(cfg, s, m, now), now)
  {
    var s1 := NoteTscg(cfg, s, m[1]);
    NoteIs(cfg, s, m[1]);
    if Closing(cfg, m[1]) {
      GiCompletedMoves(cfg, s1, true, now);
      SliceOfTwo(s.giLog, s1.giLog, GiCompleted(cfg, s1, true, now).giLog);
    }
  }

  lemma TimeoutMoves(cfg: SysConf, s: Sys, current: nat, now: int)
    requires WellSized(cfg, s) && ActiveConnected(s) && !s.crashed && StatusFits(cfg, s)
    ensures GiMoves(cfg, s, CheckGiTimeout(cfg, s, current, now), now)
  {
    if s.giRepeat != 0 && s.giStart + cfg.giTimeMax < current {
      if s.giRepeat > cfg.giRepeatMax {
        GiCompletedMoves(cfg, s, false, now);
      } else {
        var s1 := ForgetReceived(s);
        assert s1.giLog[..|s.giLog|] == s.giLog;
        OneMark(cfg, s, s1, ListCleared, now);
        if s1.active.Some? {
          SendGiMoves(cfg, s1, s1.active.value, now);
          GiMovesTwice(cfg, s, s1, SendGeneralInterrogation(cfg, s1, s1.active.value, now), now);
        }
      }
    } else {
      GiStays(cfg, s, s, now);
    }
  }


  lemma TurnMoves(cfg: SysConf, s: Sys, current: nat, now: int)
    requires WellSized(cfg, s) && ActiveConnected(s) && !s.crashed && StatusFits(cfg, s)
    ensures GiMoves(cfg, s, CheckGi(cfg, s, current, now), now)
  {
    var s1 := CheckGiTimeout(cfg, s, current, now);
    TimeoutMoves(cfg, s, current, now);
    CheckGiTimeoutSends(cfg, s, current, now);
    if !s1.crashed {
      DailyMoves(cfg, s1, current, now);
      GiMovesTwice(cfg, s, s1, CheckGi(cfg, s, current, now), now);
    }
  }

  /** The part of the turn about the daily GI. */
  lemma DailyMoves(cfg: SysConf, s: Sys, current: nat, now: int)
    requires WellSized(cfg, s) && ActiveConnected(s) && !s.crashed
    ensures var s2 := s.(sched := NewDay(cfg.schedule, s.sched, current));
            var s3 := if s2.active == None then s2 else SendGeneralInterrogation(cfg, s2, s2.active.value, now);
            && GiMoves(cfg, s, s2, now) && GiMoves(cfg, s, s3.(sched := s3.sched.(alreadySent := true)), now)
  {
    var s2 := s.(sched := NewDay(cfg.schedule, s.sched, current));
    GiStays(cfg, s, s2, now);
    if s2.active.Some? {
      var s3 := SendGeneralInterrogation(cfg, s2, s2.active.value, now);
      SendGiMoves(cfg, s2, s2.active.value, now);
      GiMovesTwice(cfg, s, s2, s3, now);
    }
  }

  // ---------------------------------------------------------------- every event

  lemma MessageMoves(cfg: SysConf, s: Sys, m: Payload, now: int)
    requires WellSized(cfg, s) && ActiveConnected(s) && !s.crashed && WholeMessage(m)
    requires ListOpen(cfg, s) && StatusFits(cfg, s)
    ensures GiMoves(cfg, s, HandleMessage(cfg, s, m, now), now)
  {
    if m[0] == Messages.TSCE_CODE {
      GiStays(cfg, s, s, now);
      RequestMoves(cfg, s, now);
    } else if m[0] == Messages.TSCG_CODE {
      TscgMoves(cfg, s, m, now);
    } else {
      GiStays(cfg, s, HandleMessage(cfg, s, m, now), now);
    }
  }

  lemma SendsKeepActive(s: Sys, r: Sys, now: int)
    requires AllSentOnly(s, r, now) && ActiveConnected(s)
    ensures ActiveConnected(r)
  {
  }

  lemma {:induction false} MessagesMove(cfg: SysConf, s: Sys, ms: seq<Payload>, now: int)
    requires WellSized(cfg, s) && ActiveConnected(s) && !s.crashed && forall m | m in ms :: WholeMessage(m)
    requires ListOpen(cfg, s) && StatusFits(cfg, s)
    ensures GiMoves(cfg, s, HandleMessages(cfg, s, ms, now), now)
    decreases |ms|
  {
    if ms == [] {
      GiStays(cfg, s, s, now);
    } else {
      var s1 := HandleMessage(cfg, s, ms[0], now);
      MessageMoves(cfg, s, ms[0], now);
      MessageKeepsListOpen(cfg, s, ms[0], now);
      MessageSends(cfg, s, ms[0], now);
      SendsKeepActive(s, s1, now);
      if !s1.crashed {
        MessagesMove(cfg, s1, ms[1..], now);
        GiMovesTwice(cfg, s, s1, HandleMessages(cfg, s1, ms[1..], now), now);
      }
    }
  }

  lemma TransitionGiMoves(cfg: SysConf, s: Sys, i: nat, event: ConnectionEvent, now: int)
    requires i < |s.paths|
    ensures GiMoves(cfg, s, ProtocolTransition(s, i, event, now), now)
  {
    var row := Row(s.paths[i].proto, event);
    if row.None? {
      GiStays(cfg, s, s, now);
    } else {
      var s0 := Entered(s, i, row.value.next);
      var r := Request(s0, i, Target(row.value.next));
      RequestAnswers(s0, i, Target(row.value.next));
      AnswerGiMoves(cfg, s, i, row.value.next, r, now);
      assert ProtocolTransition(s, i, event, now) == r.(paths := ProtocolTransition(s, i, event, now).paths) by {
        TransitionIs(s, i, event, now);
      }
      SamePartsMove(cfg, s, r, ProtocolTransition(s, i, event, now), now);
    }
  }

  lemma SamePartsMove(cfg: SysConf, s: Sys, r: Sys, q: Sys, now: int)
    requires GiMoves(cfg, s, r, now) && q == r.(paths := q.paths)
    ensures GiMoves(cfg, s, q, now)
  {
  }

  lemma AnswerGiMoves(cfg: SysConf, s: Sys, i: nat, next: ProtocolState, r: Sys, now: int)
    requires i < |s.paths| && Answer(Entered(s, i, next), i, Target(next), r)
    ensures GiMoves(cfg, s, r, now)
  {
    if r.giLog == s.giLog {
      GiStays(cfg, s, r, now);
    } else {
      assert (s.giLog + [ActivePathLost])[..|s.giLog|] == s.giLog;
      OneMark(cfg, s, r, ActivePathLost, now);
    }
  }

  lemma PathMoves(cfg: SysConf, s: Sys, r: Sys, now: int)
    requires r == s.(paths := r.paths, running := r.running)
    ensures GiMoves(cfg, s, r, now)
  {
    GiStays(cfg, s, r, now);
  }

  lemma FrameMoves(cfg: SysConf, s: Sys, i: nat, f: Frame, now: int)
    requires Ready(cfg, s) && i < |s.paths| && ActiveConnected(s) && !s.crashed && ListOpen(cfg, s) && StatusFits(cfg, s)
    requires Expressible(cfg.paths[i], f)
    ensures GiMoves(cfg, s, FrameReceived(cfg, s, i, f, now), now)
  {
    PathMoves(cfg, s, s, now);
    match f
    case UA => TransitionGiMoves(cfg, s, i, ReceivedUa, now);
    case SARM =>
      var s1 := SetPath(s, i, SendUA(s.paths[i], now));
      PathMoves(cfg, s, s1, now);
      TransitionGiMoves(cfg, s1, i, ReceivedSarm, now);
      GiMovesTwice(cfg, s, s1, ProtocolTransition(s1, i, ReceivedSarm, now), now);
    case RR(_, _) => PathMoves(cfg, s, FrameReceived(cfg, s, i, f, now), now);
    case INFO(_, _, _, _) => InfoMoves(cfg, s, i, f, now);
  }

  lemma AnswerKeepsActive(cfg: SysConf, s: Sys, i: nat, f: Frame, now: int)
    requires Ready(cfg, s) && i < |s.paths| && f.INFO? && Expressible(cfg.paths[i], f)
    ensures var r := AnswerInfo(cfg, s, i, f, now).0;
            r == s.(paths := r.paths) && (ActiveConnected(s) ==> ActiveConnected(r))
  {
    if s.paths[i].proto != OutputConnected {
      var p1 := NoteBulle(cfg.paths[i], s.paths[i], Extracted(cfg, s, i, f.payload), now);
      ReceivedRRKeepsStates(cfg.paths[i], p1, f.nr, false, now);
    }
  }

  lemma InfoMoves(cfg: SysConf, s: Sys, i: nat, f: Frame, now: int)
    requires Ready(cfg, s) && i < |s.paths| && ActiveConnected(s) && !s.crashed && ListOpen(cfg, s) && StatusFits(cfg, s)
    requires f.INFO? && Expressible(cfg.paths[i], f)
    ensures GiMoves(cfg, s, FrameReceived(cfg, s, i, f, now), now)
  {
    PathMoves(cfg, s, s, now);
    if s.paths[i].proto != Connection {
      var (s1, ms) := AnswerInfo(cfg, s, i, f, now);
      AnswerKeepsActive(cfg, s, i, f, now);
      PathMoves(cfg, s, s1, now);
      MessagesMove(cfg, s1, ms, now);
      GiMovesTwice(cfg, s, s1, HandleMessages(cfg, s1, ms, now), now);
    }
  }

  lemma ManageMoves(cfg: SysConf, s: Sys, i: nat, now: int)
    requires WellSized(cfg, s) && i < |s.paths|
    ensures GiMoves(cfg, s, ManageProtocolState(cfg, s, i, now), now)
  {
    if Sending(s.paths[i]) {
      var s1 := SetPath(s, i, SendDueBulle(cfg.paths[i], s.paths[i], now));
      PathMoves(cfg, s, s1, now);
      TransitionGiMoves(cfg, s1, i, ToRecv, now);
      GiMovesTwice(cfg, s, s1, ProtocolTransition(s1, i, ToRecv, now), now);
    } else {
      TransitionGiMoves(cfg, s, i, ToRecv, now);
      SarmTurnMoves(cfg, s, i, now);
      PathMoves(cfg, s, s, now);
    }
  }

  lemma SarmTurnMoves(cfg: SysConf, s: Sys, i: nat, now: int)
    requires WellSized(cfg, s) && i < |s.paths|
    ensures GiMoves(cfg, s, SarmTurn(cfg, s, i, now), now)
  {
    PathMoves(cfg, s, s, now);
    TransitionGiMoves(cfg, s, i, MaxSarmSent, now);
    var s1 := if s.paths[i].sarmSent == cfg.paths[i].maxSarm then ProtocolTransition(s, i, MaxSarmSent, now) else s;
    PathMoves(cfg, s1, SarmTurn(cfg, s, i, now), now);
    GiMovesTwice(cfg, s, s1, SarmTurn(cfg, s, i, now), now);
  }

  lemma InitMoves(cfg: SysConf, s: Sys, i: nat, cal: Calendar, now: int)
    requires WellSized(cfg, s) && i < |s.paths|
    ensures GiMoves(cfg, s, CheckInit(cfg, s, i, cal, now), now)
  {
    if Settles(cfg, s.paths[i], now) && s.paths[i].conn == Active && s.sendInit {
      InitMessagesMove(cfg, s, i, cal, now);
    } else {
      PathMoves(cfg, s, CheckInit(cfg, s, i, cal, now), now);
    }
  }

  lemma InitMessagesMove(cfg: SysConf, s: Sys, i: nat, cal: Calendar, now: int)
    requires WellSized(cfg, s) && i < |s.paths| && s.paths[i].proto == Connected
    ensures GiMoves(cfg, s, SendInitMessages(cfg, s, i, cal, now).(sendInit := false), now)
  {
    var s1 := SendTime(cfg, SendDate(cfg, s, i, cal, now), i, cal, now);
    GiStays(cfg, s, s1, now);
    SendInfoKeepsStates(cfg.paths[i], s.paths[i], DateMessage(cal), now);
    SendInfoKeepsStates(cfg.paths[i], SendDate(cfg, s, i, cal, now).paths[i], TimeMessage(cal, now), now);
    SendGiMoves(cfg, s1, i, now);
    var s2 := SendGeneralInterrogation(cfg, s1, i, now);
    GiStays(cfg, s2, SendInitMessages(cfg, s, i, cal, now).(sendInit := false), now);
    GiMovesTwice(cfg, s, s1, s2, now);
    GiMovesTwice(cfg, s, s2, SendInitMessages(cfg, s, i, cal, now).(sendInit := false), now);
  }

  lemma StepMoves(cfg: SysConf, s: Sys, e: Event)
    requires Ready(cfg, s) && ActiveConnected(s) && !s.crashed && ListOpen(cfg, s) && StatusFits(cfg, s)
    ensures GiMoves(cfg, s, Step(cfg, s, e), TimeOf(e))
  {
    PathMoves(cfg, s, s, TimeOf(e));
    if Concerns(s, e) {
      match e
      case Receive(i, f, now) =>
        if Expressible(cfg.paths[i], f) {
          FrameMoves(cfg, s, i, f, now);
        }
      case Disconnect(i, now) =>
        TransitionGiMoves(cfg, s, i, TcpCnxLost, now);
        SamePartsMove(cfg, s, ProtocolTransition(s, i, TcpCnxLost, now), Step(cfg, s, e), now);
      case Manage(i, now) => ManageMoves(cfg, s, i, now);
      case Repeat(_, _, _) => RepeatMoves(cfg, s, e);
      case Init(i, cal, now) => InitMoves(cfg, s, i, cal, now);
      case GiTurn(current, now) => TurnMoves(cfg, s, current, now);
      case GiRequest(now) => RequestMoves(cfg, s, now);
      case _ => PathMoves(cfg, s, Step(cfg, s, e), TimeOf(e));
    }
  }

  lemma RepeatMoves(cfg: SysConf, s: Sys, e: Event)
    requires Ready(cfg, s) && Concerns(s, e) && e.Repeat?
    ensures GiMoves(cfg, s, Effect(cfg, s, e), e.now)
  {
    var p := s.paths[e.i];
    if Overdue(cfg, p, e.current) && p.repeat >= cfg.paths[e.i].repeatMax {
      TransitionGiMoves(cfg, s, e.i, MaxSend, e.now);
    } else {
      PathMoves(cfg, s, Effect(cfg, s, e), e.now);
    }
  }

  // ---------------------------------------------------------------- whole runs

  /** Main result. In every run the status of the GI is what the history says, and none waits once one has ended. */
  lemma {:induction false} StatusIs(cfg: SysConf, current: nat, now: int, evs: seq<Event>)
    ensures StatusFits(cfg, Reached(cfg, current, now, evs))
    decreases |evs|
  {
    if evs != [] {
      var init := evs[..|evs| - 1];
      StatusIs(cfg, current, now, init);
      RunMoves(cfg, current, now, evs);
    }
  }

  lemma RunMoves(cfg: SysConf, current: nat, now: int, evs: seq<Event>)
    requires evs != [] && StatusFits(cfg, Reached(cfg, current, now, evs[..|evs| - 1]))
    ensures GiMoves(cfg, Reached(cfg, current, now, evs[..|evs| - 1]), Reached(cfg, current, now, evs),
                    TimeOf(evs[|evs| - 1]))
  {
    var init := evs[..|evs| - 1];
    var s := Reached(cfg, current, now, init);
    PathMoves(cfg, s, s, TimeOf(evs[|evs| - 1]));
    if !s.crashed {
      assert Ready(cfg, s) && ActiveConnected(s) by {
        RunKeepsInv(cfg, current, now, init);
        InvIsReady(cfg, s);
        ActiveIsConnected(cfg, s);
      }
      ListIsOpen(cfg, current, now, init);
      StepMoves(cfg, s, evs[|evs| - 1]);
    }
  }

  lemma ActiveIsConnected(cfg: SysConf, s: Sys)
    requires SysInv(cfg, s)
    ensures ActiveConnected(s)
  {
    if s.active.Some? {
      assert Abstracts(s.paths[s.active.value]);
    }
  }

  /** When the last request was sent. */
  function AskedAt(cfg: SysConf, current: nat, now: int, evs: seq<Event>): int {
    if evs == [] then 0
    else
      var before, after := Reached(cfg, current, now, evs[..|evs| - 1]).giLog, Reached(cfg, current, now, evs).giLog;
      if before <= after && SentIn(after[|before|..]) then TimeOf(evs[|evs| - 1])
      else AskedAt(cfg, current, now, evs[..|evs| - 1])
  }

  lemma {:induction false} StartIs(cfg: SysConf, current: nat, now: int, evs: seq<Event>)
    ensures Reached(cfg, current, now, evs).giStart == AskedAt(cfg, current, now, evs)
    decreases |evs|
  {
    if evs != [] {
      StartIs(cfg, current, now, evs[..|evs| - 1]);
      StatusIs(cfg, current, now, evs[..|evs| - 1]);
      RunMoves(cfg, current, now, evs);
    }
  }

  /** A GI was requested, not ended, and more than its time has passed since the last request that was sent. */
  predicate Expired(cfg: SysConf, current: nat, now: int, evs: seq<Event>, reading: nat) {
    SentSince(Reached(cfg, current, now, evs).giLog) > 0 && AskedAt(cfg, current, now, evs) + cfg.giTimeMax < reading
  }

  /** What the history tells after a turn: the list was cleared for a repetition, or the GI was ended. */
  predicate GoesFurther(before: seq<GiMark>, after: seq<GiMark>) {
    |before| < |after| && before <= after && (after[|before|] == ListCleared || after[|before|].GiEnded?)
  }

  /** Main result. In every run a turn of the supervisor repeats or ends a GI if and only if its time is over. */
  lemma TurnGoesFurtherIff(cfg: SysConf, current: nat, now: int, evs: seq<Event>, reading: nat, at: int)
    requires !Reached(cfg, current, now, evs).crashed
    ensures var s := Reached(cfg, current, now, evs);
            GoesFurther(s.giLog, Step(cfg, s, GiTurn(reading, at)).giLog) <==> Expired(cfg, current, now, evs, reading)
  {
    var s := Reached(cfg, current, now, evs);
    assert Ready(cfg, s) by {
      RunKeepsInv(cfg, current, now, evs);
      InvIsReady(cfg, s);
    }
    TurnOnFields(cfg, s, reading, at);
    assert s.giRepeat == SentSince(s.giLog) by {
      StatusIs(cfg, current, now, evs);
    }
    StartIs(cfg, current, now, evs);
  }

  lemma TurnOnFields(cfg: SysConf, s: Sys, reading: nat, at: int)
    requires Ready(cfg, s) && !s.crashed
    ensures GoesFurther(s.giLog, Step(cfg, s, GiTurn(reading, at)).giLog)
            <==> s.giRepeat != 0 && s.giStart + cfg.giTimeMax < reading
  {
    var s1 := CheckGiTimeout(cfg, s, reading, at);
    TimeoutMarks(cfg, s, reading, at);
    if !s1.crashed {
      DailyMarks(cfg, s1, reading, at);
    }
  }

  lemma TimeoutMarks(cfg: SysConf, s: Sys, reading: nat, at: int)
    requires WellSized(cfg, s)
    ensures var r := CheckGiTimeout(cfg, s, reading, at);
            if s.giRepeat != 0 && s.giStart + cfg.giTimeMax < reading then GoesFurther(s.giLog, r.giLog) else r == s
  {
    EndIsMarkedFirst(cfg, s, at);
    if s.active.Some? {
      MarkAdded(cfg, ForgetReceived(s), s.active.value, at);
    }
  }

  lemma EndIsMarkedFirst(cfg: SysConf, s: Sys, at: int)
    requires WellSized(cfg, s)
    ensures GoesFurther(s.giLog, GiCompleted(cfg, s, false, at).giLog)
  {
    var c := CloseGi(cfg, s, false);
    if s.active.Some? {
      MarkAdded(cfg, c, s.active.value, at);
    }
  }

  lemma MarkAdded(cfg: SysConf, s: Sys, i: nat, at: int)
    requires WellSized(cfg, s) && i < |s.paths|
    ensures var log := SendGeneralInterrogation(cfg, s, i, at).giLog;
            log == s.giLog || (exists sent :: log == s.giLog + [Requested(sent)])
  {
  }

  lemma DailyMarks(cfg: SysConf, s: Sys, reading: nat, at: int)
    requires WellSized(cfg, s)
    ensures var s2 := s.(sched := NewDay(cfg.schedule, s.sched, reading));
            var log := (if s2.active == None then s2 else SendGeneralInterrogation(cfg, s2, s2.active.value, at)).giLog;
            log == s.giLog || (exists sent :: log == s.giLog + [Requested(sent)])
  {
    var s2 := s.(sched := NewDay(cfg.schedule, s.sched, reading));
    if s2.active.Some? {
      MarkAdded(cfg, s2, s2.active.value, at);
    }
  }
}
