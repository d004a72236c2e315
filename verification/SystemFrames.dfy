/** What the events leave alone: the schedule of the daily GI, the list of received addresses, the section of the
    day. */
module SystemFrames {
  import opened HnzTypes
  import opened GiLog
  import opened Link
  import opened HnzSystem
  import opened Arbitration
  import opened SystemInvariants
  import Messages

  /** Neither the schedule nor the list changes, nor does a GI or the program end. */
  predicate SameLists(s: Sys, r: Sys) {
    && r.sched == s.sched && r.fledge.giReceived == s.fledge.giReceived && r.crashed == s.crashed
    && NoEndBetween(s.giLog, r.giLog) && r.fledge.daySection == s.fledge.daySection
  }

  /** The section of the day may change. */
  predicate SameButSection(s: Sys, r: Sys) {
    SameLists(s, r.(fledge := r.fledge.(daySection := s.fledge.daySection)))
  }

  lemma TransitionKeepsLists(s: Sys, i: nat, event: ConnectionEvent, now: int)
    requires i < |s.paths|
    ensures SameLists(s, ProtocolTransition(s, i, event, now))
  {
    if Row(s.paths[i].proto, event).Some? {
      var t := Row(s.paths[i].proto, event).value;
      TransitionIs(s, i, event, now);
      RequestAnswers(Entered(s, i, t.next), i, Target(t.next));
    }
  }

  lemma SendGiKeepsLists(cfg: SysConf, s: Sys, i: nat, now: int)
    requires WellSized(cfg, s) && i < |s.paths|
    ensures SameLists(s, SendGeneralInterrogation(cfg, s, i, now))
  {
  }

  lemma FrameKeepsLists(cfg: SysConf, s: Sys, i: nat, f: Frame, now: int)
    requires WellSized(cfg, s) && i < |s.paths| && Expressible(cfg.paths[i], f)
    requires WaitingSendable(cfg.paths[i], s.paths[i])
    ensures !f.INFO? ==> SameLists(s, FrameReceived(cfg, s, i, f, now))
    ensures f.INFO? ==> SameLists(s, AnswerInfo(cfg, s, i, f, now).0)
  {
    match f
    case UA => TransitionKeepsLists(s, i, ReceivedUa, now);
    case SARM => TransitionKeepsLists(SetPath(s, i, SendUA(s.paths[i], now)), i, ReceivedSarm, now);
    case _ =>
  }

  lemma ManageKeepsLists(cfg: SysConf, s: Sys, i: nat, now: int)
    requires WellSized(cfg, s) && i < |s.paths|
    ensures SameLists(s, ManageProtocolState(cfg, s, i, now))
  {
    TransitionKeepsLists(s, i, MaxSarmSent, now);
    TransitionKeepsLists(s, i, ToRecv, now);
    TransitionKeepsLists(SetPath(s, i, SendDueBulle(cfg.paths[i], s.paths[i], now)), i, ToRecv, now);
  }

  lemma RepeatKeepsLists(cfg: SysConf, s: Sys, i: nat, current: int, now: int)
    requires WellSized(cfg, s) && i < |s.paths|
    ensures SameLists(s, CheckRepeat(cfg, s, i, current, now))
  {
    TransitionKeepsLists(s, i, MaxSend, now);
  }

  /** The init messages, among them the time setting, are due. */
  predicate SetsTime(cfg: SysConf, s: Sys, i: nat, now: int)
    requires i < |s.paths|
  {
    var p := s.paths[i];
    && p.proto == Connected && p.lastConnected > 0 && now - p.lastConnected >= cfg.repeatTimeout
    && p.conn == Active && s.sendInit
  }

  lemma InitKeepsLists(cfg: SysConf, s: Sys, i: nat, cal: Calendar, now: int)
    requires WellSized(cfg, s) && i < |s.paths|
    ensures SameButSection(s, CheckInit(cfg, s, i, cal, now))
    ensures CheckInit(cfg, s, i, cal, now).fledge.daySection
            == if SetsTime(cfg, s, i, now) then cal.section else s.fledge.daySection
  {
    SendGiKeepsLists(cfg, SendTime(cfg, SendDate(cfg, s, i, cal, now), i, cal, now), i, now);
  }

  /** Events that bring no application message and are no turn of the supervisor. */
  lemma QuietEventsKeepLists(cfg: SysConf, s: Sys, e: Event)
    requires Ready(cfg, s) && Concerns(s, e) && !e.GiTurn? && !(e.Receive? && e.frame.INFO?)
    ensures SameButSection(s, Effect(cfg, s, e)) && (!e.Init? ==> SameLists(s, Effect(cfg, s, e)))
  {
    match e
    case Disconnect(i, now) => TransitionKeepsLists(s, i, TcpCnxLost, now);
    case Receive(i, f, now) =>
      if Expressible(cfg.paths[i], f) {
        FrameKeepsLists(cfg, s, i, f, now);
      }
    case Manage(i, now) => ManageKeepsLists(cfg, s, i, now);
    case Repeat(i, current, now) => RepeatKeepsLists(cfg, s, i, current, now);
    case Init(i, cal, now) => InitKeepsLists(cfg, s, i, cal, now);
    case GiRequest(now) => RequestKeepsLists(cfg, s, now);
    case _ => PathEventsKeepLists(cfg, s, e);
  }

  lemma RequestKeepsLists(cfg: SysConf, s: Sys, now: int)
    requires WellSized(cfg, s)
    ensures SameLists(s, RequestGi(cfg, s, now))
  {
    if s.active.Some? {
      SendGiKeepsLists(cfg, s, s.active.value, now);
    }
  }

  lemma PathEventsKeepLists(cfg: SysConf, s: Sys, e: Event)
    requires Ready(cfg, s) && Concerns(s, e)
    requires e.Connect? || e.TcpLost? || e.Stop? || e.ExpireCommands? || e.TcCommand? || e.TvcCommand?
    ensures SameLists(s, Effect(cfg, s, e))
  {
  }

  // ---------------------------------------------------------------- the schedule

  lemma GiCompletedKeepsSchedule(cfg: SysConf, s: Sys, success: bool, now: int)
    requires WellSized(cfg, s)
    ensures GiCompleted(cfg, s, success, now).sched == s.sched
  {
  }

  lemma MessageKeepsSchedule(cfg: SysConf, s: Sys, m: Payload, now: int)
    requires WellSized(cfg, s) && WholeMessage(m)
    ensures HandleMessage(cfg, s, m, now).sched == s.sched
  {
    if m[0] == Messages.TSCE_CODE {
      RequestKeepsLists(cfg, s, now);
    } else if m[0] == Messages.TSCG_CODE {
      GiCompletedKeepsSchedule(cfg, NoteTscg(cfg, s, m[1]), true, now);
    }
  }

  lemma {:induction false} MessagesKeepSchedule(cfg: SysConf, s: Sys, ms: seq<Payload>, now: int)
    requires WellSized(cfg, s) && forall m | m in ms :: WholeMessage(m)
    ensures HandleMessages(cfg, s, ms, now).sched == s.sched
    decreases |ms|
  {
    if ms != [] && !s.crashed {
      MessageKeepsSchedule(cfg, s, ms[0], now);
      MessagesKeepSchedule(cfg, HandleMessage(cfg, s, ms[0], now), ms[1..], now);
    }
  }

  /** Only the turn of the supervisor touches the schedule. */
  lemma OnlyTurnsTick(cfg: SysConf, s: Sys, e: Event)
    requires !e.GiTurn?
    ensures Step(cfg, s, e).sched == s.sched
  {
    if !s.crashed && Ready(cfg, s) && Concerns(s, e) {
      if e.Receive? && e.frame.INFO? {
        if Expressible(cfg.paths[e.i], e.frame) {
          FrameKeepsLists(cfg, s, e.i, e.frame, e.now);
          var (s1, ms) := AnswerInfo(cfg, s, e.i, e.frame, e.now);
          MessagesKeepSchedule(cfg, s1, ms, e.now);
        }
      } else {
        QuietEventsKeepLists(cfg, s, e);
      }
    }
  }
}
