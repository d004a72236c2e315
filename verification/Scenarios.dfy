/** How runs start: in every configuration, on every path, the three events that make it the active path
    with fresh counters. Concrete runs continue from there. */
module Scenarios {
  import opened HnzTypes
  import opened Link
  import opened LinkInvariants
  import opened HnzSystem
  import opened Arbitration
  import opened SystemInvariants
  import opened Theorems
  import GiLog
  import Messages

  predicate Alone(s: Sys, i: nat) {
    forall j | 0 <= j < |s.paths| && j != i :: s.paths[j].conn == Disconnected
  }

  predicate Fresh(p: PathState) {
    && p.tcp && p.sent == [] && p.waiting == [] && p.commands == []
    && p.nr == 0 && p.ns == 0 && p.nrr == 0 && p.repeat == 0 && p.lastSent == 0
    && p.h == EMPTY_HISTORY.(wire := p.h.wire, mark := p.h.mark)
  }

  /** Path i has entered `proto`; nothing else happened. */
  predicate Opening(cfg: SysConf, s: Sys, i: nat, proto: ProtocolState) {
    && SysInv(cfg, s) && !s.crashed && i < |s.paths| && Alone(s, i)
    && s.paths[i].proto == proto && Fresh(s.paths[i])
    && s.active == (if proto == Connected then Some(i) else None)
    && s.first == (if proto == Connection then None else Some(i))
    && s.fledge.giStatus == GiIdle && !s.fledge.giInQueue && s.giLog == [] && s.running
    && s.fledge.daySection == 0
  }

  function OpeningTime(cfg: SysConf, i: nat): nat
    requires i < |cfg.paths|
  {
    cfg.paths[i].repeatTimeout + 1
  }

  function OpeningEvents(cfg: SysConf, i: nat): seq<Event>
    requires i < |cfg.paths|
  {
    var t := OpeningTime(cfg, i);
    [Connect(i, t), Receive(i, SARM, t), Receive(i, UA, t)]
  }

  lemma RunThen(cfg: SysConf, evs: seq<Event>, e: Event)
    ensures Reached(cfg, 0, 0, evs + [e]) == Step(cfg, Reached(cfg, 0, 0, evs), e)
  {
    assert (evs + [e])[..|evs|] == evs;
  }

  lemma ReachedIsReady(cfg: SysConf, evs: seq<Event>)
    ensures Ready(cfg, Reached(cfg, 0, 0, evs))
  {
    RunKeepsInv(cfg, 0, 0, evs);
    InvIsReady(cfg, Reached(cfg, 0, 0, evs));
  }

  lemma StepIsEffect(cfg: SysConf, s: Sys, e: Event)
    requires SysInv(cfg, s) && !s.crashed && Concerns(s, e)
    ensures Ready(cfg, s) && Step(cfg, s, e) == Effect(cfg, s, e)
  {
    InvIsReady(cfg, s);
  }

  lemma NobodyPassive(ps: seq<PathState>, i: nat, j: nat)
    requires j <= |ps| && forall k | 0 <= k < |ps| && k != i :: ps[k].conn == Disconnected
    ensures FirstPassive(ps, i, j) == None
    decreases |ps| - j
  {
    if j < |ps| {
      NobodyPassive(ps, i, j + 1);
    }
  }

  /** A transition of path i while all others are disconnected, seen from its row. */
  predicate TransitsTo(s: Sys, i: nat, t: Transition, now: int, r: Sys)
    requires i < |s.paths|
  {
    && |r.paths| == |s.paths| && Alone(r, i)
    && r.paths[i] == LinkActs(t.actions, s.paths[i].(proto := t.next), now).(conn := r.paths[i].conn)
    && r.first == NoteInput(Entered(s, i, t.next), i)
    && r.active == (if t.next == Connected then (if s.active == None then Some(i) else s.active)
                    else if s.active == Some(i) then None else s.active)
    && r.running == s.running
    && r.giLog == (if t.next != Connected && s.active == Some(i) then s.giLog + [GiLog.ActivePathLost] else s.giLog)
    && r.fledge == s.fledge.(connStatus := r.fledge.connStatus)
  }

  lemma TransitsAlone(s: Sys, i: nat, event: ConnectionEvent, now: int)
    requires i < |s.paths| && Alone(s, i) && Row(s.paths[i].proto, event).Some?
    ensures TransitsTo(s, i, Row(s.paths[i].proto, event).value, now, ProtocolTransition(s, i, event, now))
  {
    var t := Row(s.paths[i].proto, event).value;
    var s0 := Entered(s, i, t.next);
    TransitionIs(s, i, event, now);
    RequestAnswers(s0, i, Target(t.next));
    AloneAnswer(s0, i, Target(t.next), Request(s0, i, Target(t.next)));
    AnswerToTarget(s, i, t, now, Request(s0, i, Target(t.next)));
  }

  lemma AnswerToTarget(s: Sys, i: nat, t: Transition, now: int, r: Sys)
    requires i < |s.paths| && Alone(s, i) && Alone(r, i) && |r.paths| == |s.paths|
    requires r.first == NoteInput(Entered(s, i, t.next), i) && r.running == s.running
    requires r.active == (if Target(t.next) == Active then (if s.active == None then Some(i) else s.active)
                          else if s.active == Some(i) then None else s.active)
    requires r.giLog == (if Target(t.next) != Active && s.active == Some(i) then s.giLog + [GiLog.ActivePathLost]
                         else s.giLog)
    requires r.fledge == s.fledge.(connStatus := r.fledge.connStatus)
    ensures TransitsTo(s, i, t, now,
                       SetPath(r, i, LinkActs(t.actions, s.paths[i].(proto := t.next), now).(conn := r.paths[i].conn)))
  {
  }

  lemma Transits(cfg: SysConf, s: Sys, i: nat, event: ConnectionEvent, now: int) returns (r: Sys)
    requires SysInv(cfg, s) && !s.crashed && i < |s.paths| && Alone(s, i) && Row(s.paths[i].proto, event).Some?
    ensures r == ProtocolTransition(s, i, event, now) && SysInv(cfg, r) && !r.crashed
    ensures TransitsTo(s, i, Row(s.paths[i].proto, event).value, now, r)
  {
    TransitionKeepsInv(cfg, s, i, event, now);
    TransitsAlone(s, i, event, now);
    r := ProtocolTransition(s, i, event, now);
  }

  lemma AloneAnswer(s: Sys, i: nat, wanted: ConnectionState, r: Sys)
    requires i < |s.paths| && Alone(s, i) && Answer(s, i, wanted, r)
    ensures |r.paths| == |s.paths| && Alone(r, i)
    ensures r.first == NoteInput(s, i) && r.running == s.running
    ensures r.active == (if wanted == Active then (if s.active == None then Some(i) else s.active)
                         else if s.active == Some(i) then None else s.active)
    ensures r.giLog == (if wanted != Active && s.active == Some(i) then s.giLog + [GiLog.ActivePathLost] else s.giLog)
    ensures r.fledge == s.fledge.(connStatus := r.fledge.connStatus)
  {
    NobodyPassive(s.paths, i, 0);
  }

  lemma Connects(cfg: SysConf, i: nat) returns (s: Sys)
    requires i < |cfg.paths|
    ensures s == Step(cfg, Initial(cfg, 0, 0), Connect(i, OpeningTime(cfg, i)))
    ensures Opening(cfg, s, i, Connection) && s.paths[i].lastConnected == 0
  {
    var s0 := Initial(cfg, 0, 0);
    var t := OpeningTime(cfg, i);
    InitialIsGood(cfg, 0, 0);
    StepIsEffect(cfg, s0, Connect(i, t));
    s := Step(cfg, s0, Connect(i, t));
    TimerStepKeepsInv(cfg, s0, i, s0.paths[i].(lastMsg := t, lastMsgSent := t, tcp := true));
  }

  /** The UA that answers a SARM. */
  lemma Answered(cfg: SysConf, s: Sys, i: nat, now: int) returns (r: Sys)
    requires SysInv(cfg, s) && i < |s.paths|
    ensures r == SetPath(s, i, SendUA(s.paths[i], now)) && SysInv(cfg, r)
  {
    r := SetPath(s, i, SendUA(s.paths[i], now));
    SendUAKeepsInv(cfg.paths[i], s.paths[i], now);
    PathStepKeepsInv(cfg, s, i, SendUA(s.paths[i], now));
  }

  lemma SarmStep(cfg: SysConf, s: Sys, i: nat, now: int)
    requires SysInv(cfg, s) && !s.crashed && i < |s.paths| && now - s.paths[i].lastConnected > cfg.paths[i].repeatTimeout
    ensures Step(cfg, s, Receive(i, SARM, now))
            == ProtocolTransition(SetPath(s, i, SendUA(s.paths[i], now)), i, ReceivedSarm, now)
  {
    StepIsEffect(cfg, s, Receive(i, SARM, now));
    SarmFrame(cfg, s, i, now);
  }

  lemma SarmFrame(cfg: SysConf, s: Sys, i: nat, now: int)
    requires WellSized(cfg, s) && i < |s.paths| && WaitingSendable(cfg.paths[i], s.paths[i])
    requires now - s.paths[i].lastConnected > cfg.paths[i].repeatTimeout
    ensures FrameReceived(cfg, s, i, SARM, now)
            == ProtocolTransition(SetPath(s, i, SendUA(s.paths[i], now)), i, ReceivedSarm, now)
  {
    assert FrameReceived(cfg, s, i, SARM, now) == ReceivedSarmFrame(cfg, s, i, now);
  }

  lemma UaStep(cfg: SysConf, s: Sys, i: nat, now: int)
    requires SysInv(cfg, s) && !s.crashed && i < |s.paths|
    ensures Step(cfg, s, Receive(i, UA, now)) == ProtocolTransition(s, i, ReceivedUa, now)
  {
    assert Ready(cfg, s) by {
      InvIsReady(cfg, s);
    }
    UaFrame(cfg, s, i, now);
  }

  lemma UaFrame(cfg: SysConf, s: Sys, i: nat, now: int)
    requires Ready(cfg, s) && !s.crashed && i < |s.paths|
    ensures Step(cfg, s, Receive(i, UA, now)) == ProtocolTransition(s, i, ReceivedUa, now)
  {
  }

  lemma InputOpens(cfg: SysConf, s: Sys, i: nat) returns (r: Sys)
    requires i < |cfg.paths| && Opening(cfg, s, i, Connection) && s.paths[i].lastConnected == 0
    ensures r == Step(cfg, s, Receive(i, SARM, OpeningTime(cfg, i)))
    ensures Opening(cfg, r, i, InputConnected)
  {
    var t := OpeningTime(cfg, i);
    SarmStep(cfg, s, i, t);
    var s1 := Answered(cfg, s, i, t);
    r := Transits(cfg, s1, i, ReceivedSarm, t);
    InputActs(s1.paths[i].(proto := InputConnected), t);
  }

  lemma InputActs(p: PathState, now: int)
    requires Fresh(p)
    ensures var q := LinkActs([SetConnectionPending, ResetInput], p, now); Fresh(q) && q.proto == p.proto
  {
    ActsOfTwo(SetConnectionPending, ResetInput, p, now);
  }

  lemma OutputOpens(cfg: SysConf, s: Sys, i: nat) returns (r: Sys)
    requires i < |cfg.paths| && Opening(cfg, s, i, InputConnected)
    ensures r == Step(cfg, s, Receive(i, UA, OpeningTime(cfg, i)))
    ensures Opening(cfg, r, i, Connected) && r.paths[i].lastConnected == OpeningTime(cfg, i)
  {
    var t := OpeningTime(cfg, i);
    UaStep(cfg, s, i, t);
    r := Transits(cfg, s, i, ReceivedUa, t);
    OutputActs(s.paths[i].(proto := Connected), t);
  }

  lemma OutputActs(p: PathState, now: int)
    requires Fresh(p)
    ensures var q := LinkActs([ResetOutput, ResolveConnected], p, now);
            Fresh(q) && q.proto == p.proto && q.lastConnected == now
  {
    ActsOfTwo(ResetOutput, ResolveConnected, p, now);
  }

  /** Every path of every configuration can be the active one. */
  lemma Opened(cfg: SysConf, i: nat) returns (s: Sys)
    requires i < |cfg.paths|
    ensures s == Reached(cfg, 0, 0, OpeningEvents(cfg, i))
    ensures Opening(cfg, s, i, Connected) && s.paths[i].lastConnected == OpeningTime(cfg, i)
  {
    var t := OpeningTime(cfg, i);
    var s1 := Connects(cfg, i);
    var s2 := InputOpens(cfg, s1, i);
    s := OutputOpens(cfg, s2, i);
    RunThen(cfg, [], Connect(i, t));
    RunThen(cfg, [Connect(i, t)], Receive(i, SARM, t));
    RunThen(cfg, [Connect(i, t), Receive(i, SARM, t)], Receive(i, UA, t));
    assert [] + [Connect(i, t)] == [Connect(i, t)];
    assert [Connect(i, t)] + [Receive(i, SARM, t)] == [Connect(i, t), Receive(i, SARM, t)];
    assert [Connect(i, t), Receive(i, SARM, t)] + [Receive(i, UA, t)] == OpeningEvents(cfg, i);
  }

  // ---------------------------------------------------------------- frames and requests that follow

  function Tscg(block: Byte): Payload {
    [Messages.TSCG_CODE, block, 0, 0, 0, 0]
  }

  lemma TscgIsWhole(bulle: (Byte, Byte), block: Byte)
    ensures Messages.Uncut(bulle, Tscg(block)) && Messages.Extract(bulle, Tscg(block)) == [Tscg(block)]
    ensures WholeMessage(Tscg(block)) && !Messages.StartsWithBulle(bulle, Tscg(block))
  {
  }

  /** Path i may deliver. */
  predicate Listening(s: Sys, i: nat) {
    && !s.crashed && i < |s.paths| && CanExtract(s, i) && 0 <= s.paths[i].nrr < 8
    && (s.paths[i].proto == InputConnected || s.paths[i].proto == Connected)
  }

  lemma TscgAnswered(cfg: SysConf, s: Sys, i: nat, f: Frame, block: Byte, at: int)
    requires WellSized(cfg, s) && Listening(s, i) && WaitingSendable(cfg.paths[i], s.paths[i])
    requires f.INFO? && 0 <= f.ns < 8 && f.nr == s.paths[i].nrr && f.payload == Tscg(block)
    ensures Expressible(cfg.paths[i], f)
    ensures var (s1, ms) := AnswerInfo(cfg, s, i, f, at);
            && ms == [Tscg(block)] && i < |s1.paths| && s1 == SetPath(s, i, s1.paths[i])
            && SameSide(s.paths[i], s1.paths[i])
  {
    TscgIsWhole(cfg.paths[i].bulleReceive, block);
  }

  /** What a frame with no news about the own messages leaves alone. */
  predicate SameSide(p: PathState, q: PathState) {
    && q.proto == p.proto && q.conn == p.conn && q.sent == p.sent && q.nrr == p.nrr
    && q.lastConnected == p.lastConnected
  }

  lemma OneMessage(cfg: SysConf, s: Sys, m: Payload, at: int)
    requires WellSized(cfg, s) && !s.crashed && WholeMessage(m)
    ensures HandleMessages(cfg, s, [m], at) == HandleMessage(cfg, s, m, at)
  {
    assert [m][1..] == [];
  }

  /** A TSCG on such a path is handled; the frame itself changes nothing but the path's own reception. */
  lemma TscgArrives(cfg: SysConf, s: Sys, i: nat, ns: int, poll: bool, block: Byte, at: int) returns (s1: Sys)
    requires Ready(cfg, s) && Listening(s, i) && 0 <= ns < 8
    ensures WellSized(cfg, s1) && |s1.paths| == |s.paths|
    ensures Step(cfg, s, Receive(i, INFO(ns, s.paths[i].nrr, poll, Tscg(block)), at))
            == HandleTscg(cfg, s1, Tscg(block), at)
    ensures s1 == SetPath(s, i, s1.paths[i]) && SameSide(s.paths[i], s1.paths[i])
  {
    var f := INFO(ns, s.paths[i].nrr, poll, Tscg(block));
    TscgIsWhole(cfg.paths[i].bulleReceive, block);
    TscgAnswered(cfg, s, i, f, block, at);
    s1 := AnswerInfo(cfg, s, i, f, at).0;
    OneMessage(cfg, s1, Tscg(block), at);
    TscgStep(cfg, s, i, f, at, s1, Tscg(block));
  }

  lemma TscgStep(cfg: SysConf, s: Sys, i: nat, f: Frame, at: int, s1: Sys, m: Payload)
    requires Ready(cfg, s) && Listening(s, i) && f.INFO? && Expressible(cfg.paths[i], f)
    requires AnswerInfo(cfg, s, i, f, at) == (s1, [m]) && WholeMessage(m)
    ensures Step(cfg, s, Receive(i, f, at)) == HandleMessages(cfg, s1, [m], at)
  {
  }

  /** Path i is the active one since `t`, and no other path is up. */
  predicate Lone(s: Sys, i: nat, t: int) {
    && !s.crashed && i < |s.paths| && s.active == Some(i) && s.first == Some(i) && Alone(s, i)
    && s.paths[i].proto == Connected && s.paths[i].nrr == 0 && s.paths[i].lastConnected == t
  }

  /** A GI request goes out when none runs and nothing is in flight. */
  lemma GiGoesOut(cfg: SysConf, s: Sys, i: nat, t: int, at: int)
    requires Ready(cfg, s) && Lone(s, i, t) && s.paths[i].sent == [] && cfg.paths[i].ratio >= 1
    requires s.fledge.giStatus == GiIdle
    ensures var r := Step(cfg, s, GiRequest(at));
            && r == SendGeneralInterrogation(cfg, s, i, at)
            && Lone(r, i, t) && r.fledge == s.fledge.(giStatus := GiStarted)
            && r.giLog == s.giLog + [GiLog.Requested(true)]
  {
  }
}
