/** Every reachable state of the plugin: the invariants of the link layer on each path, of the arbiter
    and of the GI supervisor, together. */
module SystemInvariants {
  import opened HnzTypes
  import opened Modulo8
  import opened GiLog
  import opened Link
  import opened LinkInvariants
  import opened HnzSystem
  import opened Arbitration
  import Commands
  import GiResult
  import Messages

  predicate Linked(cfg: SysConf, s: Sys) {
    |s.paths| == |cfg.paths| && forall i | 0 <= i < |s.paths| :: LinkInv(cfg.paths[i], s.paths[i])
  }

  /** Counter, list of received addresses and report are what the log says; a running campaign has an active
      path and a status that says so. */
  predicate GiFits(cfg: SysConf, s: Sys) {
    && s.giRepeat == SentSince(s.giLog)
    && s.fledge.giReceived == ReceivedBy(cfg.tsAddresses, s.giLog)
    && s.fledge.invalidated == LastReport(s.giLog)
    && ReportsFit(cfg.tsAddresses, s.giLog)
    && (s.giRepeat > 0 ==> s.active.Some? && (s.fledge.giStatus == GiStarted || s.fledge.giStatus == GiInProgress))
  }

  /** Only a delayed GI without an active path ends the program. */
  predicate CrashFits(s: Sys) {
    s.crashed ==> s.active.None? && s.fledge.giInQueue
  }

  predicate SysInv(cfg: SysConf, s: Sys) {
    WellSized(cfg, s) && ArbiterInv(s) && Linked(cfg, s) && GiFits(cfg, s) && CrashFits(s)
  }

  // ---------------------------------------------------------------- the link layer under the automaton

  /** The part of the link invariant that does not depend on the protocol state. */
  predicate LinkCore(c: PathConf, p: PathState) {
    Bounded(c, p) && Numbered(p) && Conserved(p) && WireKept(c, p) && HandedUp(p)
  }

  predicate OutputFresh(p: PathState) {
    && p.h.txs == [] && p.h.submitted == [] && p.h.popped == [] && p.h.va == 0
    && !p.h.multi && !p.h.lost && p.repeat == 0
  }

  predicate SameOutput(p: PathState, q: PathState) {
    && q.h.txs == p.h.txs && q.h.submitted == p.h.submitted && q.h.popped == p.h.popped && q.h.va == p.h.va
    && q.h.multi == p.h.multi && q.h.lost == p.h.lost && q.repeat == p.repeat
  }

  predicate ResetsOutput(acts: seq<Act>) {
    ResetOutput in acts || ResolveConnection in acts
  }

  lemma LinkActKeepsCore(c: PathConf, a: Act, p: PathState, now: int)
    requires LinkCore(c, p)
    ensures LinkCore(c, LinkAct(a, p, now))
  {
    match a
    case Discard => DiscardKeepsCore(c, p);
    case ResetOutput => ResetOutputKeepsCore(c, p);
    case ResolveConnection =>
      ResetOutputKeepsCore(c, ResetInputVariables(p, now));
    case _ =>
  }

  lemma DiscardKeepsCore(c: PathConf, p: PathState)
    requires LinkCore(c, p)
    ensures LinkCore(c, DiscardMessages(p))
  {
    var q := DiscardMessages(p);
    assert q.h.discarded == p.h.discarded + Payloads(p.sent) + p.waiting;
    MultisetOfThree(p.h.discarded, Payloads(p.sent), p.waiting);
    assert Payloads(q.sent) == [];
  }

  lemma ResetOutputKeepsCore(c: PathConf, p: PathState)
    requires LinkCore(c, p)
    ensures LinkCore(c, ResetOutputVariables(p))
  {
  }

  lemma {:induction false} LinkActsKeepCore(c: PathConf, acts: seq<Act>, p: PathState, now: int)
    requires LinkCore(c, p)
    ensures LinkCore(c, LinkActs(acts, p, now))
    decreases |acts|
  {
    if acts != [] {
      LinkActKeepsCore(c, acts[0], p, now);
      LinkActsKeepCore(c, acts[1..], LinkAct(acts[0], p, now), now);
    }
  }

  lemma LinkActOnQueues(a: Act, p: PathState, now: int)
    ensures var q := LinkAct(a, p, now);
            && (if a == Discard then q.sent == [] && q.waiting == [] else q.sent == p.sent && q.waiting == p.waiting)
            && (if a == ResetOutput || a == ResolveConnection then OutputFresh(q) else SameOutput(p, q))
  {
  }

  lemma {:induction false} LinkActsOnQueues(acts: seq<Act>, p: PathState, now: int)
    ensures var q := LinkActs(acts, p, now);
            if Discard in acts then q.sent == [] && q.waiting == [] else q.sent == p.sent && q.waiting == p.waiting
    decreases |acts|
  {
    if acts != [] {
      LinkActOnQueues(acts[0], p, now);
      LinkActsOnQueues(acts[1..], LinkAct(acts[0], p, now), now);
      assert acts == [acts[0]] + acts[1..];
    }
  }

  lemma {:induction false} LinkActsOnOutput(acts: seq<Act>, p: PathState, now: int)
    ensures var q := LinkActs(acts, p, now);
            if ResetsOutput(acts) then OutputFresh(q) else SameOutput(p, q)
    decreases |acts|
  {
    if acts != [] {
      var p1 := LinkAct(acts[0], p, now);
      LinkActOnQueues(acts[0], p, now);
      LinkActsOnOutput(acts[1..], p1, now);
      assert acts == [acts[0]] + acts[1..];
      assert OutputFresh(p1) && SameOutput(p1, LinkActs(acts, p, now)) ==> OutputFresh(LinkActs(acts, p, now));
    }
  }

  /** What each row of the table must do so that the queues fit the state it enters. */
  lemma RowClearsQueues(from: ProtocolState, event: ConnectionEvent)
    requires Row(from, event).Some?
    ensures var t := Row(from, event).value;
            && (t.next == Connection || t.next == InputConnected ==>
                  from == Connection || from == InputConnected || Discard in t.actions)
            && (t.next == OutputConnected ==>
                  (from == Connection || Discard in t.actions) && ResetsOutput(t.actions))
            && (t.next == Connected ==>
                  || (from == InputConnected && ResetsOutput(t.actions))
                  || (from == OutputConnected && Discard !in t.actions && !ResetsOutput(t.actions)))
  {
  }

  lemma RowKeepsLink(c: PathConf, p: PathState, event: ConnectionEvent, now: int)
    requires LinkInv(c, p) && Row(p.proto, event).Some?
    ensures var t := Row(p.proto, event).value;
            LinkInv(c, LinkActs(t.actions, p.(proto := t.next), now))
  {
    var t := Row(p.proto, event).value;
    var p0 := p.(proto := t.next);
    var q := LinkActs(t.actions, p0, now);
    RowClearsQueues(p.proto, event);
    LinkActsKeepCore(c, t.actions, p0, now);
    LinkActsOnQueues(t.actions, p0, now);
    LinkActsOnOutput(t.actions, p0, now);
    LinkActsKeepState(t.actions, p0, now, p0.conn);
    if t.next == Connected && p.proto == OutputConnected {
      SameWindow(c, p, q);
    } else if Sending(q) {
      assert q.sent == [] && q.waiting == [];
      FreshWindow(c, q);
    }
  }

  lemma FreshWindow(c: PathConf, q: PathState)
    requires OutputFresh(q) && q.sent == [] && q.waiting == []
    ensures ExactWindow(c, q) && DriftBounded(c, q)
  {
    assert Payloads(q.sent) == [];
  }

  lemma SameWindow(c: PathConf, p: PathState, q: PathState)
    requires WindowKept(c, p) && Sending(p) && SameOutput(p, q) && q.sent == p.sent && q.waiting == p.waiting
    ensures WindowKept(c, q)
  {
  }

  lemma ConnIsNotLink(c: PathConf, p: PathState, conn: ConnectionState)
    requires LinkInv(c, p)
    ensures LinkInv(c, p.(conn := conn))
  {
  }

  lemma TransitionKeepsInv(cfg: SysConf, s: Sys, i: nat, event: ConnectionEvent, now: int)
    requires SysInv(cfg, s) && !s.crashed && i < |s.paths|
    ensures SysInv(cfg, ProtocolTransition(s, i, event, now)) && !ProtocolTransition(s, i, event, now).crashed
  {
    if Row(s.paths[i].proto, event).Some? {
      var t := Row(s.paths[i].proto, event).value;
      var s0 := Entered(s, i, t.next);
      TransitionKeepsArbiter(s, i, event, now);
      TransitionIs(s, i, event, now);
      RequestAnswers(s0, i, Target(t.next));
      RowKeepsLink(cfg.paths[i], s.paths[i], event, now);
      AnswerKeepsRest(cfg, s, i, t, Request(s0, i, Target(t.next)), now);
    }
  }

  lemma AnswerKeepsRest(cfg: SysConf, s: Sys, i: nat, t: Transition, r: Sys, now: int)
    requires SysInv(cfg, s) && !s.crashed && i < |s.paths|
    requires Answer(Entered(s, i, t.next), i, Target(t.next), r)
    requires LinkInv(cfg.paths[i], LinkActs(t.actions, s.paths[i].(proto := t.next), now))
    ensures var s' := SetPath(r, i, LinkActs(t.actions, s.paths[i].(proto := t.next), now).(conn := r.paths[i].conn));
            Linked(cfg, s') && GiFits(cfg, s') && CrashFits(s') && !s'.crashed && |s'.paths| == |cfg.paths|
  {
    AnswerKeepsLinks(cfg, s, i, t.next, LinkActs(t.actions, s.paths[i].(proto := t.next), now), r);
    AnswerKeepsGi(cfg, s, i, t.next, r);
  }

  lemma AnswerKeepsLinks(cfg: SysConf, s: Sys, i: nat, next: ProtocolState, q: PathState, r: Sys)
    requires Linked(cfg, s) && i < |s.paths|
    requires Answer(Entered(s, i, next), i, Target(next), r) && LinkInv(cfg.paths[i], q)
    ensures Linked(cfg, SetPath(r, i, q.(conn := r.paths[i].conn)))
  {
    var s' := SetPath(r, i, q.(conn := r.paths[i].conn));
    forall j | 0 <= j < |s'.paths| ensures LinkInv(cfg.paths[j], s'.paths[j]) {
      if j == i {
        ConnIsNotLink(cfg.paths[i], q, r.paths[i].conn);
      } else {
        ConnIsNotLink(cfg.paths[j], s.paths[j], Active);
      }
    }
  }

  lemma AnswerKeepsGi(cfg: SysConf, s: Sys, i: nat, next: ProtocolState, r: Sys)
    requires GiFits(cfg, s) && i < |s.paths| && Answer(Entered(s, i, next), i, Target(next), r)
    ensures GiFits(cfg, r)
  {
  }

  // ---------------------------------------------------------------- steps inside one path

  lemma PathStepKeepsInv(cfg: SysConf, s: Sys, i: nat, p: PathState)
    requires SysInv(cfg, s) && i < |s.paths|
    requires LinkInv(cfg.paths[i], p) && p.proto == s.paths[i].proto && p.conn == s.paths[i].conn
    ensures SysInv(cfg, SetPath(s, i, p))
  {
    SamePathStatesKeepArbiter(s, SetPath(s, i, p));
  }

  lemma SendInfoKeepsStates(c: PathConf, p: PathState, m: Payload, now: int)
    ensures SendInfo(c, p, m, now).state.proto == p.proto && SendInfo(c, p, m, now).state.conn == p.conn
  {
  }

  lemma SendStepKeepsInv(cfg: SysConf, s: Sys, i: nat, m: Payload, now: int)
    requires SysInv(cfg, s) && i < |s.paths|
    ensures SysInv(cfg, SetPath(s, i, SendInfo(cfg.paths[i], s.paths[i], m, now).state))
  {
    SendInfoKeepsInv(cfg.paths[i], s.paths[i], m, now);
    SendInfoKeepsStates(cfg.paths[i], s.paths[i], m, now);
    PathStepKeepsInv(cfg, s, i, SendInfo(cfg.paths[i], s.paths[i], m, now).state);
  }

  lemma {:induction false} RefillKeepsStates(c: PathConf, p: PathState, now: int)
    requires WaitingSendable(c, p)
    ensures Refill(c, p, now).proto == p.proto && Refill(c, p, now).conn == p.conn
    decreases |p.waiting|
  {
    if p.waiting != [] && |p.sent| < c.ratio {
      RefillKeepsStates(c, RefillOnce(c, p, now), now);
    }
  }

  lemma ReceivedRRKeepsStates(c: PathConf, p: PathState, nr: int, rep: bool, now: int)
    requires WaitingSendable(c, p)
    ensures var q := ReceivedRR(c, p, nr, rep, now).state; q.proto == p.proto && q.conn == p.conn
  {
    if nr != p.nrr && IsNRValid(p.nrr, p.ns, nr) && (!rep || p.repeat > 0) {
      RefillKeepsStates(c, Pop(p, nr, now), now);
    }
  }

  /** Fields that the link invariant does not read. */
  lemma TimersAreNotLink(c: PathConf, p: PathState, q: PathState)
    requires LinkInv(c, p)
    requires q == p.(tcp := q.tcp, commands := q.commands, lastSent := q.lastSent, lastMsg := q.lastMsg,
                     lastMsgSent := q.lastMsgSent, lastSarm := q.lastSarm, lastConnected := q.lastConnected)
    ensures LinkInv(c, q)
  {
    SameQueuesKeepInv(c, p, q);
  }

  lemma TimerStepKeepsInv(cfg: SysConf, s: Sys, i: nat, q: PathState)
    requires SysInv(cfg, s) && i < |s.paths|
    requires q == s.paths[i].(tcp := q.tcp, commands := q.commands, lastSent := q.lastSent, lastMsg := q.lastMsg,
                              lastMsgSent := q.lastMsgSent, lastSarm := q.lastSarm, lastConnected := q.lastConnected)
    ensures SysInv(cfg, SetPath(s, i, q))
  {
    TimersAreNotLink(cfg.paths[i], s.paths[i], q);
    PathStepKeepsInv(cfg, s, i, q);
  }

  // ---------------------------------------------------------------- General Interrogation

  lemma FledgeStepKeepsInv(cfg: SysConf, s: Sys, r: Sys)
    requires SysInv(cfg, s) && GiFits(cfg, r) && CrashFits(r)
    requires r == s.(giRepeat := r.giRepeat, giStart := r.giStart, giLog := r.giLog, sched := r.sched, crashed := r.crashed,
                     fledge := r.fledge)
    requires r.fledge.connStatus == s.fledge.connStatus
    ensures SysInv(cfg, r)
  {
    SamePathStatesKeepArbiter(s, r);
  }

  lemma SendGiKeepsInv(cfg: SysConf, s: Sys, i: nat, now: int)
    requires SysInv(cfg, s) && !s.crashed && s.active == Some(i)
    ensures var r := SendGeneralInterrogation(cfg, s, i, now);
            SysInv(cfg, r) && !r.crashed && r.active == s.active && r.first == s.first && r.running == s.running
  {
    SendStepKeepsInv(cfg, s, i, GI_REQUEST, now);
    var o := SendInfo(cfg.paths[i], s.paths[i], GI_REQUEST, now);
    assert Abstracts(s.paths[i]);
    Appended(cfg.tsAddresses, s.giLog, Requested(o.ok));
    FledgeStepKeepsInv(cfg, SetPath(s, i, o.state), SendGeneralInterrogation(cfg, s, i, now));
  }

  /** The end of a GI crashes exactly when a GI is delayed and no path is active. */
  lemma GiCompletedKeepsInv(cfg: SysConf, s: Sys, success: bool, now: int)
    requires SysInv(cfg, s) && !s.crashed
    ensures SysInv(cfg, GiCompleted(cfg, s, success, now))
    ensures GiCompleted(cfg, s, success, now).crashed <==> s.fledge.giInQueue && s.active.None?
  {
    CloseKeepsInv(cfg, s, success);
    var s1 := CloseGi(cfg, s, success);
    if s1.fledge.giInQueue {
      if s1.active.None? {
        FledgeStepKeepsInv(cfg, s1, s1.(crashed := true));
      } else {
        DelayedKeepsInv(cfg, s1, now);
      }
    }
  }

  lemma CloseKeepsInv(cfg: SysConf, s: Sys, success: bool)
    requires SysInv(cfg, s) && !s.crashed
    ensures SysInv(cfg, CloseGi(cfg, s, success))
  {
    Appended(cfg.tsAddresses, s.giLog, GiEnded(Reported(cfg.tsAddresses, s.giLog)));
    FledgeStepKeepsInv(cfg, s, CloseGi(cfg, s, success));
  }

  lemma DelayedKeepsInv(cfg: SysConf, s: Sys, now: int)
    requires SysInv(cfg, s) && !s.crashed && s.active.Some?
    ensures var r := SendGeneralInterrogation(cfg, s, s.active.value, now);
            SysInv(cfg, r.(fledge := r.fledge.(giInQueue := false))) && !r.crashed
  {
    SendGiKeepsInv(cfg, s, s.active.value, now);
    var r := SendGeneralInterrogation(cfg, s, s.active.value, now);
    FledgeStepKeepsInv(cfg, r, r.(fledge := r.fledge.(giInQueue := false)));
  }

  lemma CheckGiCompletedKeepsInv(cfg: SysConf, s: Sys, success: bool, now: int)
    requires SysInv(cfg, s) && !s.crashed
    ensures SysInv(cfg, CheckGiCompleted(cfg, s, success, now))
    ensures s.active.Some? ==> !CheckGiCompleted(cfg, s, success, now).crashed
  {
    if success || s.giRepeat > cfg.giRepeatMax {
      GiCompletedKeepsInv(cfg, s, success, now);
    } else {
      ForgetReceivedKeepsInv(cfg, s);
      var s1 := ForgetReceived(s);
      if s1.active.Some? {
        SendGiKeepsInv(cfg, s1, s1.active.value, now);
      }
    }
  }

  lemma ForgetReceivedKeepsInv(cfg: SysConf, s: Sys)
    requires SysInv(cfg, s)
    ensures SysInv(cfg, ForgetReceived(s))
  {
    Appended(cfg.tsAddresses, s.giLog, ListCleared);
    FledgeStepKeepsInv(cfg, s, ForgetReceived(s));
  }

  /** A GI timeout never crashes: it only runs while a campaign runs, and then a path is active. */
  lemma CheckGiKeepsInv(cfg: SysConf, s: Sys, current: nat, now: int)
    requires SysInv(cfg, s) && !s.crashed
    ensures SysInv(cfg, CheckGi(cfg, s, current, now)) && !CheckGi(cfg, s, current, now).crashed
  {
    var s1 := CheckGiTimeout(cfg, s, current, now);
    if s.giRepeat != 0 && s.giStart + cfg.giTimeMax < current {
      CheckGiCompletedKeepsInv(cfg, s, false, now);
    }
    assert SysInv(cfg, s1) && !s1.crashed;
    var s2 := s1.(sched := NewDay(cfg.schedule, s1.sched, current));
    FledgeStepKeepsInv(cfg, s1, s2);
    if SlotReached(cfg.schedule, s2.sched, current) {
      if s2.active.Some? {
        SendGiKeepsInv(cfg, s2, s2.active.value, now);
      }
      var s3 := if s2.active == None then s2 else SendGeneralInterrogation(cfg, s2, s2.active.value, now);
      FledgeStepKeepsInv(cfg, s3, s3.(sched := s3.sched.(alreadySent := true)));
    }
  }

  lemma RequestGiKeepsInv(cfg: SysConf, s: Sys, now: int)
    requires SysInv(cfg, s) && !s.crashed
    ensures SysInv(cfg, RequestGi(cfg, s, now)) && !RequestGi(cfg, s, now).crashed
  {
    if s.active.Some? {
      if s.fledge.giStatus == GiStarted || s.fledge.giStatus == GiInProgress {
        FledgeStepKeepsInv(cfg, s, s.(fledge := s.fledge.(giInQueue := true)));
      } else {
        SendGiKeepsInv(cfg, s, s.active.value, now);
      }
    }
  }

  // ---------------------------------------------------------------- frames and messages

  lemma AckAllKeepsInv(cfg: SysConf, s: Sys, kind: CommandKind, addr: int)
    requires SysInv(cfg, s)
    ensures SysInv(cfg, s.(paths := AckAll(s.paths, kind, addr)))
  {
    var r := s.(paths := AckAll(s.paths, kind, addr));
    forall i | 0 <= i < |r.paths| ensures LinkInv(cfg.paths[i], r.paths[i]) {
      TimersAreNotLink(cfg.paths[i], s.paths[i], r.paths[i]);
    }
    SamePathStatesKeepArbiter(s, r);
  }

  lemma HandleMessageKeepsInv(cfg: SysConf, s: Sys, m: Payload, now: int)
    requires SysInv(cfg, s) && !s.crashed && WholeMessage(m)
    ensures SysInv(cfg, HandleMessage(cfg, s, m, now))
  {
    if m[0] == Messages.MODULO_CODE {
      FledgeStepKeepsInv(cfg, s, HandleMessage(cfg, s, m, now));
    } else if m[0] == Messages.TSCE_CODE {
      RequestGiKeepsInv(cfg, s, now);
    } else if m[0] == Messages.TSCG_CODE {
      HandleTscgKeepsInv(cfg, s, m, now);
    } else if m[0] == Messages.TCACK_CODE {
      AckAllKeepsInv(cfg, s, TC, Commands.JoinedAddress(m[1], m[2]));
    } else if m[0] == Messages.TVCACK_CODE {
      AckAllKeepsInv(cfg, s, TVC, m[1] % 32);
    }
  }

  lemma HandleTscgKeepsInv(cfg: SysConf, s: Sys, m: Payload, now: int)
    requires SysInv(cfg, s) && !s.crashed && |m| == 6
    ensures SysInv(cfg, HandleTscg(cfg, s, m, now))
  {
    NoteTscgKeepsInv(cfg, s, m[1]);
    CheckGiCompletedKeepsInv(cfg, NoteTscg(cfg, s, m[1]), true, now);
  }

  lemma NoteTscgKeepsInv(cfg: SysConf, s: Sys, block: Byte)
    requires SysInv(cfg, s) && !s.crashed
    ensures SysInv(cfg, NoteTscg(cfg, s, block))
  {
    Appended(cfg.tsAddresses, s.giLog, Brought(block));
    FledgeStepKeepsInv(cfg, s, NoteTscg(cfg, s, block));
  }

  lemma {:induction false} HandleMessagesKeepsInv(cfg: SysConf, s: Sys, ms: seq<Payload>, now: int)
    requires SysInv(cfg, s) && forall m | m in ms :: WholeMessage(m)
    ensures SysInv(cfg, HandleMessages(cfg, s, ms, now))
    decreases |ms|
  {
    if ms != [] && !s.crashed {
      assert ms[0] in ms && forall m | m in ms[1..] :: m in ms;
      HandleMessageKeepsInv(cfg, s, ms[0], now);
      HandleMessagesKeepsInv(cfg, HandleMessage(cfg, s, ms[0], now), ms[1..], now);
    }
  }

  /** Reception of an information frame in a state that is not OUTPUT_CONNECTED. */
  lemma AnswerInfoKeepsInv(cfg: SysConf, s: Sys, i: nat, f: Frame, now: int)
    requires SysInv(cfg, s) && i < |s.paths| && WaitingSendable(cfg.paths[i], s.paths[i])
    requires f.INFO? && Expressible(cfg.paths[i], f)
    ensures SysInv(cfg, AnswerInfo(cfg, s, i, f, now).0)
  {
    if s.paths[i].proto != OutputConnected {
      var ms := Extracted(cfg, s, i, f.payload);
      AnswerKeepsPath(cfg.paths[i], s.paths[i], ms, f, CanExtract(s, i), now);
      var p1 := NoteBulle(cfg.paths[i], s.paths[i], ms, now);
      PathStepKeepsInv(cfg, s, i, SendRR(cfg.paths[i], p1, f.poll, f.ns, f.nr, f.payload, CanExtract(s, i), now).state);
    }
  }

  lemma AnswerKeepsPath(c: PathConf, p: PathState, ms: seq<Payload>, f: Frame, handedUp: bool, now: int)
    requires LinkInv(c, p) && f.INFO? && 0 <= f.nr < 8
    ensures WaitingSendable(c, NoteBulle(c, p, ms, now))
    ensures var q := SendRR(c, NoteBulle(c, p, ms, now), f.poll, f.ns, f.nr, f.payload, handedUp, now).state;
            LinkInv(c, q) && q.proto == p.proto && q.conn == p.conn
  {
    var p1 := NoteBulle(c, p, ms, now);
    TimersAreNotLink(c, p, p1);
    SendRRKeepsInv(c, p1, f.poll, f.ns, f.nr, f.payload, handedUp, now);
    ReceivedRRKeepsStates(c, p1, f.nr, false, now);
  }

  lemma FrameReceivedKeepsInv(cfg: SysConf, s: Sys, i: nat, f: Frame, now: int)
    requires SysInv(cfg, s) && !s.crashed && i < |s.paths| && WaitingSendable(cfg.paths[i], s.paths[i])
    requires Expressible(cfg.paths[i], f)
    ensures SysInv(cfg, FrameReceived(cfg, s, i, f, now))
  {
    match f
    case UA => TransitionKeepsInv(cfg, s, i, ReceivedUa, now);
    case SARM =>
      SendUAKeepsInv(cfg.paths[i], s.paths[i], now);
      var s1 := SetPath(s, i, SendUA(s.paths[i], now));
      PathStepKeepsInv(cfg, s, i, SendUA(s.paths[i], now));
      TransitionKeepsInv(cfg, s1, i, ReceivedSarm, now);
    case INFO(_, _, _, _) =>
      if s.paths[i].proto != Connection {
        AnswerInfoKeepsInv(cfg, s, i, f, now);
        var (s1, ms) := AnswerInfo(cfg, s, i, f, now);
        HandleMessagesKeepsInv(cfg, s1, ms, now);
      }
    case RR(nr, final) =>
      if s.paths[i].proto != Connection {
        ReceivedRRKeepsInv(cfg.paths[i], s.paths[i], nr, final, now);
        ReceivedRRKeepsStates(cfg.paths[i], s.paths[i], nr, final, now);
        PathStepKeepsInv(cfg, s, i, ReceivedRR(cfg.paths[i], s.paths[i], nr, final, now).state);
      }
  }

  // ---------------------------------------------------------------- timers and commands

  lemma SarmAfterMaximum(s: Sys, i: nat, now: int)
    requires i < |s.paths| && (s.paths[i].proto == Connection || s.paths[i].proto == InputConnected)
    ensures ProtocolTransition(s, i, MaxSarmSent, now).paths[i].sarmSent == 0
  {
    TransitionIs(s, i, MaxSarmSent, now);
    StopThenRestart(Entered(s, i, Connection).paths[i], now);
  }

  lemma StopThenRestart(p: PathState, now: int)
    ensures LinkActs([StopTcp, ResolveConnection], p, now).sarmSent == 0
  {
    assert [StopTcp, ResolveConnection][1..] == [ResolveConnection] && [ResolveConnection][1..] == [];
  }

  lemma SarmTurnKeepsInv(cfg: SysConf, s: Sys, i: nat, now: int)
    requires SysInv(cfg, s) && !s.crashed && i < |s.paths|
    requires s.paths[i].proto == Connection || s.paths[i].proto == InputConnected
    ensures SysInv(cfg, SarmTurn(cfg, s, i, now)) && !SarmTurn(cfg, s, i, now).crashed
  {
    if s.paths[i].sarmSent == cfg.paths[i].maxSarm {
      TransitionKeepsInv(cfg, s, i, MaxSarmSent, now);
      SarmAfterMaximum(s, i, now);
      var s1 := ProtocolTransition(s, i, MaxSarmSent, now);
      SendSARMKeepsInv(cfg.paths[i], s1.paths[i], now);
      PathStepKeepsInv(cfg, s1, i, SendSARM(s1.paths[i], now));
    } else {
      SendSARMKeepsInv(cfg.paths[i], s.paths[i], now);
      PathStepKeepsInv(cfg, s, i, SendSARM(s.paths[i], now));
    }
  }

  lemma DueBulleKeepsInv(cfg: SysConf, s: Sys, i: nat, now: int)
    requires SysInv(cfg, s) && i < |s.paths|
    ensures SysInv(cfg, SetPath(s, i, SendDueBulle(cfg.paths[i], s.paths[i], now)))
  {
    var c, p := cfg.paths[i], s.paths[i];
    if now - p.lastMsgSent >= c.bulleTime * 1000 {
      SendStepKeepsInv(cfg, s, i, [c.bulleSend.0, c.bulleSend.1], now);
    } else {
      PathStepKeepsInv(cfg, s, i, p);
    }
  }

  lemma BulleTurnKeepsInv(cfg: SysConf, s: Sys, i: nat, now: int)
    requires SysInv(cfg, s) && !s.crashed && i < |s.paths|
    ensures var s1 := SetPath(s, i, SendDueBulle(cfg.paths[i], s.paths[i], now));
            && SysInv(cfg, s1) && !s1.crashed
            && SysInv(cfg, ProtocolTransition(s1, i, ToRecv, now)) && !ProtocolTransition(s1, i, ToRecv, now).crashed
  {
    DueBulleKeepsInv(cfg, s, i, now);
    TransitionKeepsInv(cfg, SetPath(s, i, SendDueBulle(cfg.paths[i], s.paths[i], now)), i, ToRecv, now);
  }

  lemma ManageKeepsInv(cfg: SysConf, s: Sys, i: nat, now: int)
    requires SysInv(cfg, s) && !s.crashed && i < |s.paths|
    ensures SysInv(cfg, ManageProtocolState(cfg, s, i, now)) && !ManageProtocolState(cfg, s, i, now).crashed
  {
    var p := s.paths[i];
    if p.proto == Connection || p.proto == InputConnected {
      assert ManageProtocolState(cfg, s, i, now) == s
             || ManageProtocolState(cfg, s, i, now) == SarmTurn(cfg, s, i, now)
             || ManageProtocolState(cfg, s, i, now) == ProtocolTransition(s, i, ToRecv, now);
      SarmTurnKeepsInv(cfg, s, i, now);
      TransitionKeepsInv(cfg, s, i, ToRecv, now);
    } else {
      var s1 := SetPath(s, i, SendDueBulle(cfg.paths[i], p, now));
      assert ManageProtocolState(cfg, s, i, now) == s1
             || ManageProtocolState(cfg, s, i, now) == ProtocolTransition(s1, i, ToRecv, now);
      BulleTurnKeepsInv(cfg, s, i, now);
    }
  }

  lemma RepeatKeepsInv(cfg: SysConf, s: Sys, i: nat, current: nat, now: int)
    requires SysInv(cfg, s) && !s.crashed && i < |s.paths|
    ensures SysInv(cfg, CheckRepeat(cfg, s, i, current, now)) && !CheckRepeat(cfg, s, i, current, now).crashed
  {
    RepeatCases(cfg, s, i, current, now);
    TransitionKeepsInv(cfg, s, i, MaxSend, now);
    if s.paths[i].sent != [] && s.paths[i].repeat < cfg.paths[i].repeatMax {
      RepeatStepKeepsInv(cfg, s, i, now);
    }
  }

  lemma RepeatCases(cfg: SysConf, s: Sys, i: nat, current: nat, now: int)
    requires WellSized(cfg, s) && i < |s.paths|
    ensures var p := s.paths[i];
            var r := CheckRepeat(cfg, s, i, current, now);
            || r == s || r == ProtocolTransition(s, i, MaxSend, now)
            || (p.sent != [] && p.repeat < cfg.paths[i].repeatMax && r == SetPath(s, i, Requeue(SendBackInfo(p, now))))
  {
  }

  lemma RepeatStepKeepsInv(cfg: SysConf, s: Sys, i: nat, now: int)
    requires SysInv(cfg, s) && i < |s.paths| && s.paths[i].sent != [] && s.paths[i].repeat < cfg.paths[i].repeatMax
    ensures SysInv(cfg, SetPath(s, i, Requeue(SendBackInfo(s.paths[i], now))))
  {
    TimeoutKeepsInv(cfg.paths[i], s.paths[i], now);
    PathStepKeepsInv(cfg, s, i, Requeue(SendBackInfo(s.paths[i], now)));
  }

  lemma InitKeepsInv(cfg: SysConf, s: Sys, i: nat, cal: Calendar, now: int)
    requires SysInv(cfg, s) && !s.crashed && i < |s.paths|
    ensures SysInv(cfg, CheckInit(cfg, s, i, cal, now)) && !CheckInit(cfg, s, i, cal, now).crashed
  {
    InitCases(cfg, s, i, cal, now);
    TimerStepKeepsInv(cfg, s, i, s.paths[i].(lastConnected := 0));
    if s.paths[i].conn == Active {
      assert s.active == Some(i);
      SendInitKeepsInv(cfg, s, i, cal, now);
      InitSentKeepsInv(cfg, SendInitMessages(cfg, s, i, cal, now));
    }
  }

  lemma InitCases(cfg: SysConf, s: Sys, i: nat, cal: Calendar, now: int)
    requires WellSized(cfg, s) && i < |s.paths|
    ensures var r := CheckInit(cfg, s, i, cal, now);
            || r == s || r == SetPath(s, i, s.paths[i].(lastConnected := 0))
            || (s.paths[i].conn == Active && r == SendInitMessages(cfg, s, i, cal, now).(sendInit := false))
  {
  }

  lemma InitSentKeepsInv(cfg: SysConf, s: Sys)
    requires SysInv(cfg, s) && s.active.Some?
    ensures SysInv(cfg, s.(sendInit := false))
  {
    SamePathStatesKeepArbiter(s, s.(sendInit := false));
  }

  lemma SendInitKeepsInv(cfg: SysConf, s: Sys, i: nat, cal: Calendar, now: int)
    requires SysInv(cfg, s) && !s.crashed && i < |s.paths| && s.active == Some(i)
    ensures var r := SendInitMessages(cfg, s, i, cal, now);
            SysInv(cfg, r) && !r.crashed && r.active == s.active
  {
    SendStepKeepsInv(cfg, s, i, DateMessage(cal), now);
    var s1 := SendDate(cfg, s, i, cal, now);
    SendStepKeepsInv(cfg, s1, i, TimeMessage(cal, now), now);
    var s2 := SetPath(s1, i, SendInfo(cfg.paths[i], s1.paths[i], TimeMessage(cal, now), now).state);
    var s3 := SendTime(cfg, s1, i, cal, now);
    FledgeStepKeepsInv(cfg, s2, s3);
    SendGiKeepsInv(cfg, s3, i, now);
    var s4 := SendGeneralInterrogation(cfg, s3, i, now);
    TimerStepKeepsInv(cfg, s4, i, s4.paths[i].(lastConnected := 0));
  }

  lemma CommandKeepsInv(cfg: SysConf, s: Sys, m: Payload, kind: CommandKind, addr: int, now: int)
    requires SysInv(cfg, s) && s.active.Some?
    ensures var i := s.active.value;
            var o := SendInfo(cfg.paths[i], s.paths[i], m, now);
            SysInv(cfg, SetPath(s, i, RegisterCommand(cfg.paths[i], o.state, o.ok, kind, addr, now)))
  {
    var i := s.active.value;
    var o := SendInfo(cfg.paths[i], s.paths[i], m, now);
    SendInfoKeepsInv(cfg.paths[i], s.paths[i], m, now);
    SendInfoKeepsStates(cfg.paths[i], s.paths[i], m, now);
    var q := RegisterCommand(cfg.paths[i], o.state, o.ok, kind, addr, now);
    TimersAreNotLink(cfg.paths[i], o.state, q);
    PathStepKeepsInv(cfg, s, i, q);
  }

  // ---------------------------------------------------------------- every step, every run

  lemma InvIsReady(cfg: SysConf, s: Sys)
    requires SysInv(cfg, s)
    ensures Ready(cfg, s)
  {
    forall i | 0 <= i < |s.paths| ensures WaitingSendable(cfg.paths[i], s.paths[i]) {
      WaitingIsSendable(cfg.paths[i], s.paths[i]);
    }
  }

  lemma StepKeepsInv(cfg: SysConf, s: Sys, e: Event)
    requires SysInv(cfg, s)
    ensures SysInv(cfg, Step(cfg, s, e))
  {
    if !s.crashed && Concerns(s, e) {
      InvIsReady(cfg, s);
      match e
      case Connect(_, _) => ConnectionEventKeepsInv(cfg, s, e);
      case TcpLost(_) => ConnectionEventKeepsInv(cfg, s, e);
      case Disconnect(_, _) => ConnectionEventKeepsInv(cfg, s, e);
      case Stop => ConnectionEventKeepsInv(cfg, s, e);
      case Receive(i, f, now) =>
        if Expressible(cfg.paths[i], f) {
          FrameReceivedKeepsInv(cfg, s, i, f, now);
        }
      case Manage(i, now) => ManageKeepsInv(cfg, s, i, now);
      case Repeat(i, current, now) => RepeatKeepsInv(cfg, s, i, current, now);
      case Init(i, cal, now) => InitKeepsInv(cfg, s, i, cal, now);
      case ExpireCommands(_, _) => CommandEventKeepsInv(cfg, s, e);
      case GiTurn(current, now) => CheckGiKeepsInv(cfg, s, current, now);
      case TcCommand(_, _, _) => CommandEventKeepsInv(cfg, s, e);
      case TvcCommand(_, _, _) => CommandEventKeepsInv(cfg, s, e);
      case GiRequest(now) => RequestGiKeepsInv(cfg, s, now);
    }
  }

  lemma ConnectionEventKeepsInv(cfg: SysConf, s: Sys, e: Event)
    requires SysInv(cfg, s) && !s.crashed && Ready(cfg, s) && Concerns(s, e)
    requires e.Connect? || e.TcpLost? || e.Disconnect? || e.Stop?
    ensures SysInv(cfg, Effect(cfg, s, e))
  {
    match e
    case Connect(i, now) => TimerStepKeepsInv(cfg, s, i, s.paths[i].(lastMsg := now, lastMsgSent := now, tcp := true));
    case TcpLost(i) => TimerStepKeepsInv(cfg, s, i, s.paths[i].(tcp := false));
    case Disconnect(i, now) =>
      TransitionKeepsInv(cfg, s, i, TcpCnxLost, now);
      var s1 := ProtocolTransition(s, i, TcpCnxLost, now);
      TimerStepKeepsInv(cfg, s1, i, s1.paths[i].(tcp := false));
    case Stop => SamePathStatesKeepArbiter(s, s.(running := false));
  }

  lemma CommandEventKeepsInv(cfg: SysConf, s: Sys, e: Event)
    requires SysInv(cfg, s) && !s.crashed && Ready(cfg, s) && Concerns(s, e)
    requires e.ExpireCommands? || e.TcCommand? || e.TvcCommand?
    ensures SysInv(cfg, Effect(cfg, s, e))
  {
    match e
    case ExpireCommands(i, current) => ExpiryKeepsInv(cfg, s, i, current);
    case TcCommand(address, value, now) => TcKeepsInv(cfg, s, address, value, now);
    case TvcCommand(address, value, now) => TvcKeepsInv(cfg, s, address, value, now);
  }

  lemma ExpiryKeepsInv(cfg: SysConf, s: Sys, i: nat, current: nat)
    requires SysInv(cfg, s) && i < |s.paths|
    ensures SysInv(cfg, CheckCommandTimer(s, i, current))
  {
    TimerStepKeepsInv(cfg, s, i, s.paths[i].(commands := Commands.Unexpired(s.paths[i].commands, current)));
  }

  lemma TcKeepsInv(cfg: SysConf, s: Sys, address: int, value: Byte, now: int)
    requires SysInv(cfg, s)
    ensures SysInv(cfg, SendTcCommand(cfg, s, address, value, now))
  {
    if s.active.Some? {
      CommandKeepsInv(cfg, s, Commands.TcPayload(address, value), TC, address, now);
    }
  }

  lemma TvcKeepsInv(cfg: SysConf, s: Sys, address: Byte, value: int, now: int)
    requires SysInv(cfg, s)
    ensures SysInv(cfg, SendTvcCommand(cfg, s, address, value, now))
  {
    if s.active.Some? {
      CommandKeepsInv(cfg, s, Commands.TvcPayload(address, value), TVC, address, now);
    }
  }

  lemma InitialIsGood(cfg: SysConf, current: nat, now: int)
    ensures SysInv(cfg, Initial(cfg, current, now))
  {
    var s := Initial(cfg, current, now);
    assert Payloads([]) == [];
    forall i | 0 <= i < |s.paths| ensures LinkInv(cfg.paths[i], s.paths[i]) && Abstracts(s.paths[i]) {
    }
  }

  /** In every run from the initial state, every state satisfies all the invariants. */
  lemma {:induction false} RunKeepsInv(cfg: SysConf, current: nat, now: int, evs: seq<Event>)
    ensures SysInv(cfg, Run(cfg, Initial(cfg, current, now), evs))
    decreases |evs|
  {
    if evs == [] {
      InitialIsGood(cfg, current, now);
    } else {
      RunKeepsInv(cfg, current, now, evs[..|evs| - 1]);
      StepKeepsInv(cfg, Run(cfg, Initial(cfg, current, now), evs[..|evs| - 1]), evs[|evs| - 1]);
    }
  }
}
