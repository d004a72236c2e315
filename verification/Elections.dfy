/** Which path is the active one, and which one delivers while there is none. */
module Elections {
  import opened HnzTypes
  import opened Link
  import opened LinkInvariants
  import opened HnzSystem
  import opened Arbitration
  import opened SystemInvariants
  import opened Theorems
  import opened Scenarios
  import opened PathSteps
  import opened PathEvents
  import Messages

  /** The path that takes over from path i: the first other one that is CONNECTED. */
  predicate Heir(s: Sys, i: nat, h: Option<nat>) {
    match h
    case Some(k) =>
      && k < |s.paths| && k != i && s.paths[k].proto == Connected
      && forall j | 0 <= j < k && j != i :: s.paths[j].proto != Connected
    case None => forall j | 0 <= j < |s.paths| && j != i :: s.paths[j].proto != Connected
  }

  /** The signal makes path p ask the arbiter. */
  predicate Asks(p: PathState, g: Signal) {
    g != Quiet && !(g == UaHeard && Sending(p)) && !(g == Silence && p.proto == OutputConnected)
  }

  /** The arbiter after an event of path i. The path that delivers keeps its place as long as its input is open; a
      free place goes to the next path that asks with an open input. The active path stays active as long as it is
      CONNECTED; a free place goes to the next path that becomes CONNECTED; one that was active is succeeded by its
      heir, while the connection is running. */
  predicate Elects(s: Sys, r: Sys, i: nat, asks: bool)
    requires i < |s.paths|
  {
    && r.running == s.running
    && |r.paths| == |s.paths| && (forall j | 0 <= j < |s.paths| && j != i :: r.paths[j].proto == s.paths[j].proto)
    && r.first == (if s.first == Some(i) && !InputOpen(r.paths[i]) then None
                   else if s.first == None && asks && InputOpen(r.paths[i]) then Some(i) else s.first)
    && (s.active == Some(i) && r.paths[i].proto == Connected ==> r.active == Some(i))
    && (s.active == Some(i) && r.paths[i].proto != Connected ==>
          if s.running then Heir(s, i, r.active) else r.active == None)
    && (s.active.Some? && s.active != Some(i) ==> r.active == s.active)
    && (s.active == None ==>
          r.active == if r.paths[i].proto == Connected && s.paths[i].proto != Connected then Some(i) else None)
  }

  predicate SameElection(s: Sys, r: Sys) {
    && |r.paths| == |s.paths| && r.active == s.active && r.first == s.first && r.running == s.running
    && forall j | 0 <= j < |s.paths| :: r.paths[j].proto == s.paths[j].proto
  }

  lemma SameElects(s: Sys, r: Sys, i: nat)
    requires ArbiterInv(s) && i < |s.paths| && SameElection(s, r)
    ensures Elects(s, r, i, false)
  {
    assert Abstracts(s.paths[i]);
  }

  lemma SuccessorIsHeir(s: Sys, i: nat, next: ProtocolState)
    requires ArbiterInv(s) && i < |s.paths| && s.active == Some(i) && s.running && next != Connected
    ensures Heir(s, i, Successor(Entered(s, i, next), i, Target(next)))
  {
    FirstPassiveIgnoresSelf(s.paths, i, 0, s.paths[i].(proto := next));
    forall j | 0 <= j < |s.paths| && j != i ensures s.paths[j].conn == Passive <==> s.paths[j].proto == Connected {
      assert Abstracts(s.paths[j]);
    }
  }

  lemma AnswerElects(s: Sys, i: nat, next: ProtocolState, r: Sys)
    requires ArbiterInv(s) && i < |s.paths| && Answer(Entered(s, i, next), i, Target(next), r)
    requires next == Connected ==> s.paths[i].proto != Connected
    ensures Elects(s, r, i, true) && r.paths[i].proto == next
  {
    assert Abstracts(s.paths[i]);
    if s.active == Some(i) && s.running {
      SuccessorIsHeir(s, i, next);
    }
  }

  lemma TransitionElects(s: Sys, i: nat, event: ConnectionEvent, now: int)
    requires ArbiterInv(s) && i < |s.paths| && Row(s.paths[i].proto, event).Some?
    ensures Elects(s, ProtocolTransition(s, i, event, now), i, true)
  {
    var t := Row(s.paths[i].proto, event).value;
    var s0 := Entered(s, i, t.next);
    var r := Request(s0, i, Target(t.next));
    assert t.next == Connected ==> s.paths[i].proto != Connected by {
      RowAsksOnce(s.paths[i].proto, event);
    }
    var q := LinkActs(t.actions, s0.paths[i], now).(conn := r.paths[i].conn);
    RequestAnswers(s0, i, Target(t.next));
    AnswerElects(s, i, t.next, r);
    assert q.proto == t.next by {
      LinkActsKeepState(t.actions, s0.paths[i], now, s0.paths[i].conn);
    }
    SameProtoKeepsElection(r, i, q);
    assert ProtocolTransition(s, i, event, now) == SetPath(r, i, q) by {
      TransitionIs(s, i, event, now);
    }
    ElectsBetween(s, s, r, SetPath(r, i, q), i, true);
  }

  lemma SameProtoKeepsElection(s: Sys, i: nat, q: PathState)
    requires i < |s.paths| && q.proto == s.paths[i].proto
    ensures SameElection(s, SetPath(s, i, q))
  {
  }

  lemma SignalElects(s: Sys, i: nat, g: Signal, now: int)
    requires ArbiterInv(s) && i < |s.paths| && g != Quiet
    requires (g == GaveUp ==> Sending(s.paths[i])) && (g == SarmsSpent ==> !Sending(s.paths[i]))
    ensures Elects(s, ProtocolTransition(s, i, EventFor(g), now), i, Asks(s.paths[i], g))
  {
    if Asks(s.paths[i], g) {
      TransitionElects(s, i, EventFor(g), now);
    } else {
      SameElects(s, s, i);
    }
  }

  /** What came before or after the transition in the same step does not matter. */
  lemma ElectsBetween(s: Sys, s1: Sys, r1: Sys, r: Sys, i: nat, asks: bool)
    requires i < |s.paths| && SameElection(s, s1)
    requires Elects(s1, r1, i, asks) && SameElection(r1, r)
    ensures Elects(s, r, i, asks)
  {
  }

  // ---------------------------------------------------------------- every event

  lemma SendsKeepElection(s: Sys, r: Sys, now: int)
    requires AllSentOnly(s, r, now)
    ensures SameElection(s, r)
  {
  }

  predicate Turns(cfg: SysConf, s: Sys, e: Event, i: nat)
    requires WellSized(cfg, s) && i < |s.paths|
  {
    Asks(s.paths[i], SignalOf(cfg, s, e, i))
  }

  lemma FrameElects(cfg: SysConf, s: Sys, i: nat, f: Frame, now: int)
    requires ArbiterInv(s) && Ready(cfg, s) && i < |s.paths|
    ensures Elects(s, Effect(cfg, s, Receive(i, f, now)), i, Turns(cfg, s, Receive(i, f, now), i))
  {
    SameElects(s, s, i);
    if Expressible(cfg.paths[i], f) {
      match f
      case UA => SignalElects(s, i, UaHeard, now);
      case SARM => SarmElects(cfg, s, i, now);
      case RR(nr, final) => RRElects(cfg, s, i, nr, final, now);
      case INFO(_, _, _, _) => InfoElects(cfg, s, i, f, now);
    }
  }

  lemma SarmElects(cfg: SysConf, s: Sys, i: nat, now: int)
    requires ArbiterInv(s) && WellSized(cfg, s) && i < |s.paths|
    ensures Elects(s, ReceivedSarmFrame(cfg, s, i, now), i, Turns(cfg, s, Receive(i, SARM, now), i))
  {
    var s1 := SetPath(s, i, SendUA(s.paths[i], now));
    SamePathStatesKeepArbiter(s, s1);
    SameElects(s, s1, i);
    SignalElects(s1, i, SarmHeard, now);
    var r := ProtocolTransition(s1, i, ReceivedSarm, now);
    ElectsBetween(s, s1, r, r, i, true);
  }

  lemma RRElects(cfg: SysConf, s: Sys, i: nat, nr: int, final: bool, now: int)
    requires ArbiterInv(s) && Ready(cfg, s) && i < |s.paths|
    ensures Elects(s, SetPath(s, i, ReceivedRR(cfg.paths[i], s.paths[i], nr, final, now).state), i, false)
  {
    ReceivedRRKeepsStates(cfg.paths[i], s.paths[i], nr, final, now);
    SameElects(s, SetPath(s, i, ReceivedRR(cfg.paths[i], s.paths[i], nr, final, now).state), i);
  }

  lemma AnswerInfoElects(cfg: SysConf, s: Sys, i: nat, f: Frame, now: int)
    requires Ready(cfg, s) && i < |s.paths| && f.INFO? && Expressible(cfg.paths[i], f)
    ensures SameElection(s, AnswerInfo(cfg, s, i, f, now).0)
  {
    if s.paths[i].proto != OutputConnected {
      var p1 := NoteBulle(cfg.paths[i], s.paths[i], Extracted(cfg, s, i, f.payload), now);
      ReceivedRRKeepsStates(cfg.paths[i], p1, f.nr, false, now);
    }
  }

  lemma InfoElects(cfg: SysConf, s: Sys, i: nat, f: Frame, now: int)
    requires ArbiterInv(s) && Ready(cfg, s) && i < |s.paths| && f.INFO? && Expressible(cfg.paths[i], f)
    ensures Elects(s, FrameReceived(cfg, s, i, f, now), i, false)
  {
    SameElects(s, s, i);
    var (s1, ms) := AnswerInfo(cfg, s, i, f, now);
    var r := HandleMessages(cfg, s1, ms, now);
    AnswerInfoElects(cfg, s, i, f, now);
    MessagesSend(cfg, s1, ms, now);
    SendsKeepElection(s1, r, now);
    SameElects(s, r, i);
  }

  lemma ManageElects(cfg: SysConf, s: Sys, i: nat, now: int)
    requires ArbiterInv(s) && WellSized(cfg, s) && i < |s.paths|
    ensures Elects(s, ManageProtocolState(cfg, s, i, now), i, Turns(cfg, s, Manage(i, now), i))
  {
    if Sending(s.paths[i]) {
      BulleTurnElects(cfg, s, i, now);
    } else {
      IdleTurnElects(cfg, s, i, now);
    }
  }

  lemma BulleKeepsElection(cfg: SysConf, s: Sys, i: nat, now: int) returns (s1: Sys)
    requires ArbiterInv(s) && WellSized(cfg, s) && i < |s.paths|
    ensures s1 == SetPath(s, i, SendDueBulle(cfg.paths[i], s.paths[i], now))
    ensures ArbiterInv(s1) && SameElection(s, s1)
  {
    var c, p := cfg.paths[i], s.paths[i];
    s1 := SetPath(s, i, SendDueBulle(c, p, now));
    SendInfoKeepsStates(c, p, [c.bulleSend.0, c.bulleSend.1], now);
    SamePathStatesKeepArbiter(s, s1);
  }

  lemma BulleTurnIs(cfg: SysConf, s: Sys, i: nat, now: int)
    requires WellSized(cfg, s) && i < |s.paths| && Sending(s.paths[i])
    ensures var s1 := SetPath(s, i, SendDueBulle(cfg.paths[i], s.paths[i], now));
            ManageProtocolState(cfg, s, i, now)
            == if Silent(cfg.paths[i], s.paths[i], now) && s.paths[i].proto == Connected
               then ProtocolTransition(s1, i, ToRecv, now) else s1
  {
  }

  lemma BulleTurnElects(cfg: SysConf, s: Sys, i: nat, now: int)
    requires ArbiterInv(s) && WellSized(cfg, s) && i < |s.paths| && Sending(s.paths[i])
    ensures Elects(s, ManageProtocolState(cfg, s, i, now), i, Turns(cfg, s, Manage(i, now), i))
  {
    var s1 := BulleKeepsElection(cfg, s, i, now);
    BulleTurnIs(cfg, s, i, now);
    if Silent(cfg.paths[i], s.paths[i], now) && s.paths[i].proto == Connected {
      var r := ProtocolTransition(s1, i, ToRecv, now);
      TransitionElects(s1, i, ToRecv, now);
      ElectsBetween(s, s1, r, r, i, true);
    } else {
      SameElects(s, s1, i);
    }
  }

  lemma IdleTurnIs(cfg: SysConf, s: Sys, i: nat, now: int)
    requires WellSized(cfg, s) && i < |s.paths| && !Sending(s.paths[i])
    ensures var c, p := cfg.paths[i], s.paths[i];
            ManageProtocolState(cfg, s, i, now)
            == if Silent(c, p, now) then ProtocolTransition(s, i, ToRecv, now)
               else if SarmDue(c, p, now) then SarmTurn(cfg, s, i, now) else s
  {
  }

  lemma SarmKeepsElection(s: Sys, i: nat, now: int)
    requires i < |s.paths|
    ensures SameElection(s, SetPath(s, i, SendSARM(s.paths[i], now)))
  {
  }

  lemma IdleTurnElects(cfg: SysConf, s: Sys, i: nat, now: int)
    requires ArbiterInv(s) && WellSized(cfg, s) && i < |s.paths| && !Sending(s.paths[i])
    ensures Elects(s, ManageProtocolState(cfg, s, i, now), i, Turns(cfg, s, Manage(i, now), i))
  {
    var p := s.paths[i];
    IdleTurnIs(cfg, s, i, now);
    SameElects(s, s, i);
    if Silent(cfg.paths[i], p, now) {
      TransitionElects(s, i, ToRecv, now);
    } else if SarmDue(cfg.paths[i], p, now) {
      var s1 := if p.sarmSent == cfg.paths[i].maxSarm then ProtocolTransition(s, i, MaxSarmSent, now) else s;
      TransitionElects(s, i, MaxSarmSent, now);
      SarmKeepsElection(s1, i, now);
      ElectsBetween(s, s, s1, SarmTurn(cfg, s, i, now), i, p.sarmSent == cfg.paths[i].maxSarm);
    }
  }

  lemma RepeatElects(cfg: SysConf, s: Sys, i: nat, current: nat, now: int)
    requires ArbiterInv(s) && WellSized(cfg, s) && i < |s.paths| && Orderly(s.paths[i])
    ensures Elects(s, CheckRepeat(cfg, s, i, current, now), i, Turns(cfg, s, Repeat(i, current, now), i))
  {
    if Overdue(cfg, s.paths[i], current) && s.paths[i].repeat >= cfg.paths[i].repeatMax {
      SignalElects(s, i, PathSteps.GaveUp, now);
    } else {
      SameElects(s, CheckRepeat(cfg, s, i, current, now), i);
    }
  }

  lemma InitElects(cfg: SysConf, s: Sys, i: nat, cal: Calendar, now: int)
    requires ArbiterInv(s) && WellSized(cfg, s) && i < |s.paths|
    ensures Elects(s, CheckInit(cfg, s, i, cal, now), i, false)
  {
    assert SameElection(s, CheckInit(cfg, s, i, cal, now)) by {
      InitKeepsElection(cfg, s, i, cal, now);
    }
    SameElects(s, CheckInit(cfg, s, i, cal, now), i);
  }

  lemma InitKeepsElection(cfg: SysConf, s: Sys, i: nat, cal: Calendar, now: int)
    requires WellSized(cfg, s) && i < |s.paths|
    ensures SameElection(s, CheckInit(cfg, s, i, cal, now))
  {
    if Settles(cfg, s.paths[i], now) && s.paths[i].conn == Active && s.sendInit {
      var m := SendGeneralInterrogation(cfg, SendTime(cfg, SendDate(cfg, s, i, cal, now), i, cal, now), i, now);
      assert SameElection(s, m) by {
        InitMessagesSend(cfg, s, i, cal, now);
        SendsKeepElection(s, m, now);
      }
      SameProtoKeepsElection(m, i, m.paths[i].(lastConnected := 0));
    } else {
      SameProtoKeepsElection(s, i, s.paths[i].(lastConnected := 0));
    }
  }

  lemma ConnectionElects(cfg: SysConf, s: Sys, e: Event, i: nat)
    requires ArbiterInv(s) && Ready(cfg, s) && Concerns(s, e) && (e.Connect? || e.TcpLost? || e.Disconnect?) && e.i == i
    ensures Elects(s, Effect(cfg, s, e), i, Turns(cfg, s, e, i))
  {
    if e.Disconnect? {
      TransitionElects(s, i, TcpCnxLost, e.now);
      ElectsBetween(s, s, ProtocolTransition(s, i, TcpCnxLost, e.now), Effect(cfg, s, e), i, true);
    } else {
      SameElects(s, Effect(cfg, s, e), i);
    }
  }

  lemma OwnEventElects(cfg: SysConf, s: Sys, e: Event, i: nat)
    requires ArbiterInv(s) && Ready(cfg, s) && Concerns(s, e) && OwnEvent(e, i) && Orderly(s.paths[i])
    ensures Elects(s, Effect(cfg, s, e), i, Turns(cfg, s, e, i))
  {
    match e
    case Receive(_, f, now) => FrameElects(cfg, s, i, f, now);
    case Manage(_, now) => ManageElects(cfg, s, i, now);
    case Repeat(_, current, now) => RepeatElects(cfg, s, i, current, now);
    case Init(_, cal, now) => InitElects(cfg, s, i, cal, now);
    case _ => ConnectionElects(cfg, s, e, i);
  }

  /** The connection shuts down with the step. */
  function ShutDown(s: Sys, e: Event): Sys {
    if e.Stop? then s.(running := false) else s
  }

  /** An event of a path elects as said, any other leaves the election alone; only the shutdown ends the running. */
  lemma StepElects(cfg: SysConf, s: Sys, e: Event)
    requires SysInv(cfg, s) && !s.crashed
    ensures var r := Step(cfg, s, e);
            if Concerns(s, e) && PathEvent(e) then Elects(s, r, e.i, Turns(cfg, s, e, e.i))
            else SameElection(ShutDown(s, e), r)
  {
    InvIsReady(cfg, s);
    if Concerns(s, e) {
      if PathEvent(e) {
        InvIsOrderly(cfg, s, e.i);
        OwnEventElects(cfg, s, e, e.i);
      } else {
        OtherEventElects(cfg, s, e);
      }
    }
  }

  lemma OtherEventElects(cfg: SysConf, s: Sys, e: Event)
    requires Ready(cfg, s) && Concerns(s, e) && !PathEvent(e)
    ensures SameElection(ShutDown(s, e), Effect(cfg, s, e))
  {
    if SendsAtMost(e) {
      EventSends(cfg, s, e);
      SendsKeepElection(s, Effect(cfg, s, e), TimeOf(e));
    }
  }

  // ---------------------------------------------------------------- whole runs

  /** Path i opens its input in the step. */
  predicate OpensInput(s: Sys, r: Sys, i: nat)
    requires i < |s.paths| == |r.paths|
  {
    !InputOpen(s.paths[i]) && InputOpen(r.paths[i])
  }

  predicate Completed(s: Sys, r: Sys, i: nat)
    requires i < |s.paths| == |r.paths|
  {
    s.paths[i].proto != Connected && r.paths[i].proto == Connected
  }

  /** Who delivers while no path is active: the first path that opened its input, as long as it is open. */
  predicate FirstComes(s: Sys, r: Sys) {
    && |r.paths| == |s.paths| && (s.first.Some? ==> s.first.value < |s.paths|)
    && (s.first.Some? ==> r.first == if InputOpen(r.paths[s.first.value]) then s.first else None)
    && (s.first.None? ==> forall i | 0 <= i < |s.paths| && OpensInput(s, r, i) :: r.first == Some(i))
  }

  /** Who is active: the first path that got CONNECTED, as long as it is; then its heir. */
  predicate FirstConnects(s: Sys, r: Sys) {
    && |r.paths| == |s.paths| && (s.active.Some? ==> s.active.value < |s.paths|)
    && (s.active.Some? && r.paths[s.active.value].proto == Connected ==> r.active == s.active)
    && (s.active.Some? && r.paths[s.active.value].proto != Connected ==>
          if s.running then Heir(s, s.active.value, r.active) else r.active == None)
    && (s.active.None? ==>
          && (forall i | 0 <= i < |s.paths| && Completed(s, r, i) :: r.active == Some(i))
          && (r.active.Some? ==> r.active.value < |s.paths| && Completed(s, r, r.active.value)))
  }

  lemma ElectionIsFirst(s: Sys, r: Sys, i: nat, asks: bool)
    requires ArbiterInv(s) && i < |s.paths| && Elects(s, r, i, asks)
    requires OpensInput(s, r, i) ==> asks
    ensures FirstComes(s, r) && FirstConnects(s, r)
  {
    if s.active.Some? {
      assert Abstracts(s.paths[s.active.value]);
    }
  }

  lemma SameElectionIsFirst(s: Sys, r: Sys)
    requires ArbiterInv(s) && SameElection(s.(running := r.running), r)
    ensures FirstComes(s, r) && FirstConnects(s, r)
  {
    if s.active.Some? {
      assert Abstracts(s.paths[s.active.value]);
    }
  }

  lemma OpeningAsks(cfg: SysConf, s: Sys, e: Event)
    requires SysInv(cfg, s) && !s.crashed && Concerns(s, e) && PathEvent(e)
    ensures e.i < |Step(cfg, s, e).paths| == |s.paths|
    ensures OpensInput(s, Step(cfg, s, e), e.i) ==> Turns(cfg, s, e, e.i)
  {
    StepKeepsInv(cfg, s, e);
    StepFollows(cfg, s, e, e.i);
  }

  /** Main result. In every run every step elects like this: first come, first served, for delivering and for being
      active; and the successor of the active path is the first other path that is CONNECTED. */
  lemma FirstComeFirstServed(cfg: SysConf, current: nat, now: int, evs: seq<Event>, e: Event)
    ensures var s := Reached(cfg, current, now, evs);
            FirstComes(s, Step(cfg, s, e)) && FirstConnects(s, Step(cfg, s, e))
  {
    var s := Reached(cfg, current, now, evs);
    RunKeepsInv(cfg, current, now, evs);
    if s.crashed || !(Concerns(s, e) && PathEvent(e)) {
      if !s.crashed {
        StepElects(cfg, s, e);
      }
      SameElectionIsFirst(s, Step(cfg, s, e));
    } else {
      StepElects(cfg, s, e);
      OpeningAsks(cfg, s, e);
      ElectionIsFirst(s, Step(cfg, s, e), e.i, Turns(cfg, s, e, e.i));
    }
  }

  /** The shutdown was asked for. */
  predicate Stopped(cfg: SysConf, current: nat, now: int, evs: seq<Event>) {
    evs != [] && (Stopped(cfg, current, now, evs[..|evs| - 1])
                  || (evs[|evs| - 1].Stop? && !Reached(cfg, current, now, evs[..|evs| - 1]).crashed))
  }

  /** In every run: until then, and only until then, a lost active path has an heir. */
  lemma {:induction false} RunningIs(cfg: SysConf, current: nat, now: int, evs: seq<Event>)
    ensures Reached(cfg, current, now, evs).running <==> !Stopped(cfg, current, now, evs)
    decreases |evs|
  {
    if evs != [] {
      var init := evs[..|evs| - 1];
      RunningIs(cfg, current, now, init);
      RunKeepsInv(cfg, current, now, init);
      if !Reached(cfg, current, now, init).crashed {
        StepElects(cfg, Reached(cfg, current, now, init), evs[|evs| - 1]);
      }
    }
  }

  // ---------------------------------------------------------------- two paths

  /** Two paths have their input open, i first; nobody is active. */
  predicate BothOpen(cfg: SysConf, s: Sys, i: nat, j: nat) {
    && SysInv(cfg, s) && !s.crashed && i < |s.paths| && j < |s.paths|
    && s.paths[i].proto == InputConnected && s.paths[j].proto == InputConnected
    && s.first == Some(i) && s.active == None
  }

  lemma FirstOpens(cfg: SysConf, i: nat) returns (s: Sys)
    requires i < |cfg.paths|
    ensures s == Reached(cfg, 0, 0, [Connect(i, OpeningTime(cfg, i)), Receive(i, SARM, OpeningTime(cfg, i))])
    ensures SysInv(cfg, s) && !s.crashed && i < |s.paths| && s.paths[i].proto == InputConnected && Alone(s, i)
    ensures s.first == Some(i) && s.active == None
  {
    var t := OpeningTime(cfg, i);
    var s1 := Connects(cfg, i);
    s := InputOpens(cfg, s1, i);
    RunThen(cfg, [], Connect(i, t));
    RunThen(cfg, [Connect(i, t)], Receive(i, SARM, t));
    assert [] + [Connect(i, t)] == [Connect(i, t)];
    assert [Connect(i, t)] + [Receive(i, SARM, t)] == [Connect(i, t), Receive(i, SARM, t)];
  }

  lemma SecondOpens(cfg: SysConf, s: Sys, i: nat, j: nat) returns (e: Event)
    requires SysInv(cfg, s) && !s.crashed && i < |s.paths| && j < |s.paths| && i != j && Alone(s, i)
    requires s.paths[i].proto == InputConnected && s.first == Some(i) && s.active == None
    ensures BothOpen(cfg, Step(cfg, s, e), i, j)
  {
    var t := s.paths[j].lastConnected + cfg.paths[j].repeatTimeout + 1;
    e := Receive(j, SARM, t);
    assert s.paths[j].proto == Connection by {
      assert Abstracts(s.paths[j]);
    }
    SecondSarm(cfg, s, i, j, t);
    StepKeepsInv(cfg, s, e);
    SarmNeverCrashes(cfg, s, j, t);
  }

  lemma SecondSarm(cfg: SysConf, s: Sys, i: nat, j: nat, t: int)
    requires SysInv(cfg, s) && !s.crashed && i < |s.paths| && j < |s.paths| && i != j
    requires s.paths[i].proto == InputConnected && s.paths[j].proto == Connection
    requires s.first == Some(i) && s.active == None && t - s.paths[j].lastConnected > cfg.paths[j].repeatTimeout
    ensures var r := Step(cfg, s, Receive(j, SARM, t));
            && |r.paths| == |s.paths| && r.paths[i].proto == InputConnected && r.paths[j].proto == InputConnected
            && r.first == Some(i) && r.active == None
  {
    InvIsOrderly(cfg, s, j);
    SarmElects(cfg, s, j, t);
    SarmFollows(cfg, s, j, t);
    SarmIsEffect(cfg, s, j, t);
  }

  lemma SarmNeverCrashes(cfg: SysConf, s: Sys, j: nat, t: int)
    requires SysInv(cfg, s) && !s.crashed && j < |s.paths|
    requires t - s.paths[j].lastConnected > cfg.paths[j].repeatTimeout
    ensures !Step(cfg, s, Receive(j, SARM, t)).crashed
  {
    SarmStep(cfg, s, j, t);
    var s1 := Answered(cfg, s, j, t);
    TransitionKeepsInv(cfg, s1, j, ReceivedSarm, t);
  }

  lemma SarmIsEffect(cfg: SysConf, s: Sys, j: nat, t: int)
    requires Ready(cfg, s) && !s.crashed && j < |s.paths|
    requires t - s.paths[j].lastConnected > cfg.paths[j].repeatTimeout
    ensures Step(cfg, s, Receive(j, SARM, t)) == ReceivedSarmFrame(cfg, s, j, t)
  {
  }

  lemma BothOpened(cfg: SysConf, i: nat, j: nat) returns (evs: seq<Event>)
    requires i < |cfg.paths| && j < |cfg.paths| && i != j
    ensures BothOpen(cfg, Reached(cfg, 0, 0, evs), i, j)
  {
    var s := FirstOpens(cfg, i);
    var e := SecondOpens(cfg, s, i, j);
    evs := [Connect(i, OpeningTime(cfg, i)), Receive(i, SARM, OpeningTime(cfg, i))] + [e];
    RunThen(cfg, [Connect(i, OpeningTime(cfg, i)), Receive(i, SARM, OpeningTime(cfg, i))], e);
  }

  /** What a frame with one TSCG brings to the application. */
  lemma TscgIsHandedUpIff(cfg: SysConf, evs: seq<Event>, k: nat, block: Byte, at: int)
    requires k < |cfg.paths| && k < |Reached(cfg, 0, 0, evs).paths|
    ensures var s := Reached(cfg, 0, 0, evs);
            var f := INFO(0, s.paths[k].nrr % 8, false, Tscg(block));
            && Ready(cfg, s) && Expressible(cfg.paths[k], f)
            && AnswerInfo(cfg, s, k, f, at).1 == if CanExtract(s, k) then [Tscg(block)] else []
  {
    var s := Reached(cfg, 0, 0, evs);
    TscgIsWhole(cfg.paths[k].bulleReceive, block);
    HandedUpIff(cfg, 0, 0, evs, k, INFO(0, s.paths[k].nrr % 8, false, Tscg(block)), at);
    NrrIsSmall(cfg, evs, k);
  }

  lemma NrrIsSmall(cfg: SysConf, evs: seq<Event>, k: nat)
    requires k < |cfg.paths| && k < |Reached(cfg, 0, 0, evs).paths|
    ensures var p := Reached(cfg, 0, 0, evs).paths[k]; p.nrr % 8 == p.nrr
  {
    ReachedLink(cfg, 0, 0, evs, k);
  }

  /** In every configuration with two paths a run in which both get INPUT_CONNECTED: the first one hands up what it
      receives, the second one does not. */
  lemma FirstDelivers(cfg: SysConf, i: nat, j: nat, block: Byte, at: int) returns (evs: seq<Event>)
    requires i < |cfg.paths| && j < |cfg.paths| && i != j
    ensures var s := Reached(cfg, 0, 0, evs);
            && Ready(cfg, s) && BothOpen(cfg, s, i, j)
            && Messages.Uncut(cfg.paths[i].bulleReceive, Tscg(block)) && Messages.Uncut(cfg.paths[j].bulleReceive, Tscg(block))
            && AnswerInfo(cfg, s, i, INFO(0, s.paths[i].nrr % 8, false, Tscg(block)), at).1 == [Tscg(block)]
            && AnswerInfo(cfg, s, j, INFO(0, s.paths[j].nrr % 8, false, Tscg(block)), at).1 == []
  {
    evs := BothOpened(cfg, i, j);
    TscgIsHandedUpIff(cfg, evs, i, block, at);
    TscgIsHandedUpIff(cfg, evs, j, block, at);
  }

  /** When the first one goes, the second one does not take over: no path delivers, although one has its input
      open. */
  lemma NobodyDelivers(cfg: SysConf, i: nat, j: nat) returns (evs: seq<Event>)
    requires i < |cfg.paths| && j < |cfg.paths| && i != j
    ensures var s := Reached(cfg, 0, 0, evs);
            && j < |s.paths| && s.paths[j].proto == InputConnected
            && forall k | 0 <= k < |s.paths| :: !CanExtract(s, k)
  {
    var open := BothOpened(cfg, i, j);
    var s := Reached(cfg, 0, 0, open);
    evs := open + [Disconnect(i, 0)];
    RunThen(cfg, open, Disconnect(i, 0));
    StepElects(cfg, s, Disconnect(i, 0));
    StepFollows(cfg, s, Disconnect(i, 0), i);
  }
}
