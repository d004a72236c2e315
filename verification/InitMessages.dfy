/** The messages that open a connection: date, time, request for a GI. */
module InitMessages {
  import opened HnzTypes
  import opened Link
  import opened LinkInvariants
  import opened HnzSystem
  import opened Arbitration
  import opened SystemInvariants
  import opened Theorems
  import opened PathSteps
  import opened PathEvents
  import opened Handshake
  import opened Timers

  /** The three messages, in the formats of the protocol; the fraction of the section comes from the clock. */
  function Opening(cal: Calendar, at: int): seq<Payload> {
    var fraction := at % 600000 / 10;
    [[0x1c, cal.mday, cal.month, cal.year], [0x1d, cal.section, fraction / 256, fraction % 256, 0], [0x13, 0x01]]
  }

  /** The path has been connected for long enough. */
  predicate Settled(cfg: SysConf, current: nat, now: int, evs: seq<Event>, i: nat, at: int) {
    var since := ConnectedAt(cfg, current, now, evs, i);
    Opens(cfg, current, now, evs, i) && since > 0 && at - since >= cfg.repeatTimeout
  }

  /** The messages were not sent since there was no active path. */
  predicate OpeningDue(cfg: SysConf, current: nat, now: int, evs: seq<Event>) {
    if evs == [] then true
    else
      var init, e := evs[..|evs| - 1], evs[|evs| - 1];
      var s := Reached(cfg, current, now, init);
      || Reached(cfg, current, now, evs).active.None?
      || (OpeningDue(cfg, current, now, init)
          && !(e.Init? && !s.crashed && e.i < |cfg.paths| && s.active == Some(e.i)
               && Settled(cfg, current, now, init, e.i, e.now)))
  }

  // ---------------------------------------------------------------- are they due?

  /** Losing the last active path makes them due, and nothing else does. */
  predicate DueKept(s: Sys, r: Sys) {
    r.sendInit == (s.sendInit || r.active.None?)
  }

  lemma TransitionKeepsDue(s: Sys, i: nat, event: ConnectionEvent, now: int)
    requires ArbiterInv(s) && i < |s.paths|
    ensures DueKept(s, ProtocolTransition(s, i, event, now))
  {
    var row := Row(s.paths[i].proto, event);
    if row.Some? {
      var s0 := Entered(s, i, row.value.next);
      RequestAnswers(s0, i, Target(row.value.next));
      TransitionIs(s, i, event, now);
    }
  }

  lemma SendsKeepDue(s: Sys, r: Sys, now: int)
    requires ArbiterInv(s) && AllSentOnly(s, r, now)
    ensures DueKept(s, r)
  {
  }

  lemma FrameKeepsDue(cfg: SysConf, s: Sys, i: nat, f: Frame, now: int)
    requires ArbiterInv(s) && Ready(cfg, s) && i < |s.paths| && Expressible(cfg.paths[i], f)
    ensures DueKept(s, FrameReceived(cfg, s, i, f, now))
  {
    match f
    case UA => TransitionKeepsDue(s, i, ReceivedUa, now);
    case SARM =>
      var s1 := SetPath(s, i, SendUA(s.paths[i], now));
      SamePathStatesKeepArbiter(s, s1);
      TransitionKeepsDue(s1, i, ReceivedSarm, now);
    case INFO(_, _, _, _) =>
      if s.paths[i].proto != Connection {
        var (s1, ms) := AnswerInfo(cfg, s, i, f, now);
        MessagesSend(cfg, s1, ms, now);
      }
    case _ =>
  }

  lemma ManageKeepsDue(cfg: SysConf, s: Sys, i: nat, now: int)
    requires ArbiterInv(s) && WellSized(cfg, s) && i < |s.paths|
    ensures DueKept(s, ManageProtocolState(cfg, s, i, now))
  {
    if Sending(s.paths[i]) {
      var s1 := SetPath(s, i, SendDueBulle(cfg.paths[i], s.paths[i], now));
      SendInfoKeepsStates(cfg.paths[i], s.paths[i], [cfg.paths[i].bulleSend.0, cfg.paths[i].bulleSend.1], now);
      SamePathStatesKeepArbiter(s, s1);
      TransitionKeepsDue(s1, i, ToRecv, now);
    } else {
      TransitionKeepsDue(s, i, ToRecv, now);
      TransitionKeepsDue(s, i, MaxSarmSent, now);
    }
  }

  /** The messages go out in this step. */
  predicate SentNow(cfg: SysConf, s: Sys, e: Event)
    requires WellSized(cfg, s)
  {
    e.Init? && e.i < |s.paths| && Settles(cfg, s.paths[e.i], e.now) && s.paths[e.i].conn == Active && s.sendInit
  }

  lemma PathEventKeepsDue(cfg: SysConf, s: Sys, e: Event)
    requires ArbiterInv(s) && Ready(cfg, s) && Concerns(s, e) && PathEvent(e) && !e.Init?
    ensures DueKept(s, Effect(cfg, s, e))
  {
    match e
    case Disconnect(i, now) => TransitionKeepsDue(s, i, TcpCnxLost, now);
    case Receive(i, f, now) =>
      if Expressible(cfg.paths[i], f) {
        FrameKeepsDue(cfg, s, i, f, now);
      }
    case Manage(i, now) => ManageKeepsDue(cfg, s, i, now);
    case Repeat(i, _, now) => TransitionKeepsDue(s, i, MaxSend, now);
    case _ =>
  }

  lemma InitSends(cfg: SysConf, s: Sys, e: Event)
    requires ArbiterInv(s) && Ready(cfg, s) && Concerns(s, e) && e.Init?
    ensures var r := Effect(cfg, s, e); r.sendInit == (r.active.None? || (s.sendInit && !SentNow(cfg, s, e)))
  {
    if SentNow(cfg, s, e) {
      InitMessagesSend(cfg, s, e.i, e.cal, e.now);
    }
  }

  lemma StepKeepsDue(cfg: SysConf, s: Sys, e: Event)
    requires ArbiterInv(s) && Ready(cfg, s) && !s.crashed
    ensures var r := Step(cfg, s, e); r.sendInit == (r.active.None? || (s.sendInit && !SentNow(cfg, s, e)))
  {
    if Concerns(s, e) {
      if e.Init? {
        InitSends(cfg, s, e);
      } else if PathEvent(e) {
        PathEventKeepsDue(cfg, s, e);
      } else if SendsAtMost(e) {
        EventSends(cfg, s, e);
        SendsKeepDue(s, Step(cfg, s, e), TimeOf(e));
      }
    }
  }

  lemma {:induction false} DueIs(cfg: SysConf, current: nat, now: int, evs: seq<Event>)
    ensures Reached(cfg, current, now, evs).sendInit <==> OpeningDue(cfg, current, now, evs)
    decreases |evs|
  {
    if evs != [] {
      var init, e := evs[..|evs| - 1], evs[|evs| - 1];
      var s := Reached(cfg, current, now, init);
      DueIs(cfg, current, now, init);
      assert ArbiterInv(s) && Ready(cfg, s) && |s.paths| == |cfg.paths| by {
        RunKeepsInv(cfg, current, now, init);
        InvIsReady(cfg, s);
      }
      if !s.crashed {
        StepKeepsDue(cfg, s, e);
        if e.Init? && e.i < |cfg.paths| {
          TimersAre(cfg, current, now, init, e.i);
          ActiveIsElected(s, e.i);
        }
      }
    }
  }

  lemma ActiveIsElected(s: Sys, i: nat)
    requires ArbiterInv(s) && i < |s.paths|
    ensures s.paths[i].conn == Active <==> s.active == Some(i)
  {
  }

  // ---------------------------------------------------------------- the turn that sends them

  /** Main result. In every run a turn after the connection hands over exactly these three messages, in this order, if
      and only if the path has been connected for long enough, is the active one, and they are due; otherwise no
      message at all. */
  lemma InitTurnIs(cfg: SysConf, current: nat, now: int, evs: seq<Event>, i: nat, cal: Calendar, at: int)
    requires i < |cfg.paths| && !Reached(cfg, current, now, evs).crashed
    ensures var s := Reached(cfg, current, now, evs);
            var r := Step(cfg, s, Init(i, cal, at));
            && i < |s.paths| && i < |r.paths|
            && r.paths[i].h.accepted
               == s.paths[i].h.accepted
                  + (if Settled(cfg, current, now, evs, i, at) && s.active == Some(i) && OpeningDue(cfg, current, now, evs)
                     then Opening(cal, at) else [])
  {
    var s := Reached(cfg, current, now, evs);
    assert ArbiterInv(s) && Ready(cfg, s) && |s.paths| == |cfg.paths| by {
      RunKeepsInv(cfg, current, now, evs);
      InvIsReady(cfg, s);
    }
    TimersAre(cfg, current, now, evs, i);
    ActiveIsElected(s, i);
    DueIs(cfg, current, now, evs);
    InitAccepts(cfg, s, i, cal, at);
  }

  lemma SendAccepts(c: PathConf, p: PathState, m: Payload, at: int)
    requires p.proto == Connected
    ensures var q := SendInfo(c, p, m, at).state; q.h.accepted == p.h.accepted + [m] && q.proto == Connected
  {
  }

  lemma InitAccepts(cfg: SysConf, s: Sys, i: nat, cal: Calendar, at: int)
    requires Ready(cfg, s) && !s.crashed && i < |s.paths|
    ensures var r := Step(cfg, s, Init(i, cal, at));
            && i < |r.paths|
            && r.paths[i].h.accepted
               == s.paths[i].h.accepted
                  + (if Settles(cfg, s.paths[i], at) && s.paths[i].conn == Active && s.sendInit then Opening(cal, at) else [])
  {
    var p := s.paths[i];
    if Settles(cfg, p, at) && p.conn == Active && s.sendInit {
      var s1 := SendDate(cfg, s, i, cal, at);
      var s2 := SendTime(cfg, s1, i, cal, at);
      SendAccepts(cfg.paths[i], p, DateMessage(cal), at);
      SendAccepts(cfg.paths[i], s1.paths[i], TimeMessage(cal, at), at);
      SendAccepts(cfg.paths[i], s2.paths[i], GI_REQUEST, at);
      assert p.h.accepted + [DateMessage(cal)] + [TimeMessage(cal, at)] + [GI_REQUEST] == p.h.accepted + Opening(cal, at);
    }
  }
}
