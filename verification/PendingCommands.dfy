/** Which commands wait for an acknowledgement, told from the events, and which acknowledgement ends that. */
module PendingCommands {
  import opened HnzTypes
  import opened Link
  import opened LinkInvariants
  import opened HnzSystem
  import opened Arbitration
  import opened SystemInvariants
  import opened Theorems
  import opened Scenarios
  import opened PathSteps
  import opened PathEvents
  import opened Handshake
  import opened Acknowledgements
  import Commands
  import Messages

  /** The message is the acknowledgement of the command: of a TC by its address in tens and units, of a TVC by five
      bits. */
  predicate Acknowledges(m: Payload, c: Command) {
    || (|m| == 3 && m[0] == 0x09 && c.kind == TC && c.addr == 10 * (m[1] as int) + m[2] / 32)
    || (|m| == 4 && m[0] == 0x0a && c.kind == TVC && c.addr == m[1] % 32)
  }

  /** The commands that none of the messages acknowledges, in their order. */
  function Without(cmds: seq<Command>, ms: seq<Payload>): seq<Command> {
    if cmds == [] then []
    else
      var last := cmds[|cmds| - 1];
      Without(cmds[..|cmds| - 1], ms) + (if exists m :: m in ms && Acknowledges(m, last) then [] else [last])
  }

  /** The commands that are not overdue. */
  function InTime(cmds: seq<Command>, current: int): seq<Command> {
    if cmds == [] then []
    else
      var last := cmds[|cmds| - 1];
      InTime(cmds[..|cmds| - 1], current) + (if last.deadline >= current then [last] else [])
  }

  lemma {:induction false} InTimeIs(cmds: seq<Command>, current: int)
    ensures InTime(cmds, current) == Commands.Unexpired(cmds, current)
  {
    if cmds != [] {
      InTimeIs(cmds[..|cmds| - 1], current);
    }
  }

  lemma {:induction false} WithoutNothing(cmds: seq<Command>, ms: seq<Payload>)
    requires forall m, c | m in ms && c in cmds :: !Acknowledges(m, c)
    ensures Without(cmds, ms) == cmds
  {
    if cmds != [] {
      assert cmds[|cmds| - 1] in cmds;
      WithoutNothing(cmds[..|cmds| - 1], ms);
    }
  }

  lemma {:induction false} WithoutTwice(cmds: seq<Command>, m: Payload, ms: seq<Payload>)
    ensures Without(Without(cmds, [m]), ms) == Without(cmds, [m] + ms)
  {
    if cmds != [] {
      var init, last := cmds[..|cmds| - 1], cmds[|cmds| - 1];
      WithoutTwice(init, m, ms);
      assert (exists x :: x in [m] && Acknowledges(x, last)) <==> Acknowledges(m, last) by {
        assert m in [m];
      }
      assert (exists x :: x in [m] + ms && Acknowledges(x, last))
             <==> Acknowledges(m, last) || exists x :: x in ms && Acknowledges(x, last) by {
        assert m in [m] + ms;
        assert forall x | x in ms :: x in [m] + ms;
      }
      var left := Without(init, [m]);
      if Acknowledges(m, last) {
        assert left + [] == left;
      } else {
        assert (left + [last])[..|left|] == left;
      }
    }
  }

  lemma {:induction false} WithoutMembers(cmds: seq<Command>, ms: seq<Payload>, c: Command)
    ensures c in Without(cmds, ms) <==> c in cmds && !(exists m :: m in ms && Acknowledges(m, c))
  {
    if cmds != [] {
      WithoutMembers(cmds[..|cmds| - 1], ms, c);
      assert cmds == cmds[..|cmds| - 1] + [cmds[|cmds| - 1]];
    }
  }

  lemma {:induction false} UnacknowledgedIs(cmds: seq<Command>, m: Payload, kind: CommandKind, addr: int)
    requires forall c :: Commands.IsFor(c, kind, addr) <==> Acknowledges(m, c)
    ensures Commands.Unacknowledged(cmds, kind, addr) == Without(cmds, [m])
  {
    if cmds != [] {
      UnacknowledgedIs(cmds[..|cmds| - 1], m, kind, addr);
      assert (exists x :: x in [m] && Acknowledges(x, cmds[|cmds| - 1])) <==> Acknowledges(m, cmds[|cmds| - 1]) by {
        assert m in [m];
      }
    }
  }

  // ---------------------------------------------------------------- messages

  predicate SameCommands(s: Sys, r: Sys) {
    |r.paths| == |s.paths| && forall j | 0 <= j < |s.paths| :: r.paths[j].commands == s.paths[j].commands
  }

  lemma SendGiKeepsCommands(cfg: SysConf, s: Sys, i: nat, now: int)
    requires WellSized(cfg, s) && i < |s.paths|
    ensures SameCommands(s, SendGeneralInterrogation(cfg, s, i, now))
  {
  }

  lemma RequestKeepsCommands(cfg: SysConf, s: Sys, now: int)
    requires WellSized(cfg, s)
    ensures SameCommands(s, RequestGi(cfg, s, now))
  {
    if s.active.Some? {
      SendGiKeepsCommands(cfg, s, s.active.value, now);
    }
  }

  lemma GiCompletedKeepsCommands(cfg: SysConf, s: Sys, success: bool, now: int)
    requires WellSized(cfg, s)
    ensures SameCommands(s, GiCompleted(cfg, s, success, now))
  {
    var s1 := CloseGi(cfg, s, success);
    if s1.active.Some? {
      SendGiKeepsCommands(cfg, s1, s1.active.value, now);
    }
  }

  lemma TurnKeepsCommands(cfg: SysConf, s: Sys, current: nat, now: int)
    requires WellSized(cfg, s)
    ensures SameCommands(s, CheckGi(cfg, s, current, now))
  {
    GiCompletedKeepsCommands(cfg, s, false, now);
    if s.active.Some? {
      SendGiKeepsCommands(cfg, ForgetReceived(s), s.active.value, now);
    }
    var s1 := CheckGiTimeout(cfg, s, current, now);
    assert SameCommands(s, s1);
    var s2 := s1.(sched := NewDay(cfg.schedule, s1.sched, current));
    if s2.active.Some? {
      SendGiKeepsCommands(cfg, s2, s2.active.value, now);
    }
  }

  lemma OtherMessageKeepsCommands(cfg: SysConf, s: Sys, m: Payload, now: int)
    requires WellSized(cfg, s) && WholeMessage(m) && m[0] != 0x09 && m[0] != 0x0a
    ensures SameCommands(s, HandleMessage(cfg, s, m, now))
  {
    if m[0] == Messages.TSCE_CODE {
      RequestKeepsCommands(cfg, s, now);
    } else if m[0] == Messages.TSCG_CODE {
      GiCompletedKeepsCommands(cfg, NoteTscg(cfg, s, m[1]), true, now);
    }
  }

  lemma MessageClears(cfg: SysConf, s: Sys, m: Payload, now: int, j: nat)
    requires WellSized(cfg, s) && WholeMessage(m) && j < |s.paths|
    ensures HandleMessage(cfg, s, m, now).paths[j].commands == Without(s.paths[j].commands, [m])
  {
    var cmds := s.paths[j].commands;
    if m[0] == 0x09 {
      Commands.JoinedAddressIs(m[1], m[2]);
      UnacknowledgedIs(cmds, m, TC, Commands.JoinedAddress(m[1], m[2]));
    } else if m[0] == 0x0a {
      UnacknowledgedIs(cmds, m, TVC, m[1] % 32);
    } else {
      OtherMessageKeepsCommands(cfg, s, m, now);
      WithoutNothing(cmds, [m]);
    }
  }

  lemma {:induction false} MessagesClear(cfg: SysConf, s: Sys, ms: seq<Payload>, now: int, j: nat)
    requires WellSized(cfg, s) && (forall m | m in ms :: WholeMessage(m)) && j < |s.paths|
    requires !HandleMessages(cfg, s, ms, now).crashed
    ensures j < |HandleMessages(cfg, s, ms, now).paths|
    ensures HandleMessages(cfg, s, ms, now).paths[j].commands == Without(s.paths[j].commands, ms)
    decreases |ms|
  {
    if ms == [] || s.crashed {
      WithoutNothing(s.paths[j].commands, []);
    } else {
      var s1 := HandleMessage(cfg, s, ms[0], now);
      MessageClears(cfg, s, ms[0], now, j);
      MessagesClear(cfg, s1, ms[1..], now, j);
      WithoutTwice(s.paths[j].commands, ms[0], ms[1..]);
      assert [ms[0]] + ms[1..] == ms;
    }
  }

  // ---------------------------------------------------------------- every event

  /** A command goes out at once on the active path. */
  predicate GoesOut(cfg: SysConf, s: Sys, i: nat)
    requires WellSized(cfg, s) && i < |s.paths|
  {
    s.active == Some(i) && |s.paths[i].sent| < cfg.paths[i].ratio
  }

  /** What an event leaves of the pending commands of path i, and adds to them. */
  function CommandsAfter(cfg: SysConf, s: Sys, e: Event, i: nat, cmds: seq<Command>): seq<Command>
    requires Ready(cfg, s) && i < |s.paths|
  {
    match e
    case TcCommand(address, _, now) =>
      (if GoesOut(cfg, s, i) then [Command(TC, address, now + cfg.paths[i].ackTimeMax)] else []) + cmds
    case TvcCommand(address, _, now) =>
      (if GoesOut(cfg, s, i) then [Command(TVC, address, now + cfg.paths[i].ackTimeMax)] else []) + cmds
    case ExpireCommands(k, current) => if k == i then InTime(cmds, current) else cmds
    case Receive(k, f, now) =>
      if k < |s.paths| && f.INFO? && Expressible(cfg.paths[k], f) && s.paths[k].proto != Connection
      then Without(cmds, AnswerInfo(cfg, s, k, f, now).1) else cmds
    case _ => cmds
  }

  lemma {:induction false} LinkActsKeepCommands(acts: seq<Act>, p: PathState, now: int)
    ensures LinkActs(acts, p, now).commands == p.commands
    decreases |acts|
  {
    if acts != [] {
      LinkActsKeepCommands(acts[1..], LinkAct(acts[0], p, now), now);
    }
  }

  lemma TransitionKeepsCommands(s: Sys, i: nat, event: ConnectionEvent, now: int)
    requires i < |s.paths|
    ensures SameCommands(s, ProtocolTransition(s, i, event, now))
  {
    var row := Row(s.paths[i].proto, event);
    if row.Some? {
      var s0 := Entered(s, i, row.value.next);
      TransitionIs(s, i, event, now);
      RequestAnswers(s0, i, Target(row.value.next));
      LinkActsKeepCommands(row.value.actions, s0.paths[i], now);
    }
  }

  lemma {:induction false} RefillKeepsCommands(c: PathConf, p: PathState, now: int)
    requires WaitingSendable(c, p)
    ensures Refill(c, p, now).commands == p.commands
    decreases |p.waiting|
  {
    if p.waiting != [] && |p.sent| < c.ratio {
      RefillKeepsCommands(c, RefillOnce(c, p, now), now);
    }
  }

  lemma RRKeepsCommands(c: PathConf, p: PathState, nr: int, final: bool, now: int)
    requires WaitingSendable(c, p)
    ensures ReceivedRR(c, p, nr, final, now).state.commands == p.commands
  {
    RefillKeepsCommands(c, Pop(p, nr, now), now);
  }

  lemma AnswerKeepsCommands(cfg: SysConf, s: Sys, i: nat, f: Frame, now: int)
    requires Ready(cfg, s) && i < |s.paths| && f.INFO? && Expressible(cfg.paths[i], f)
    ensures SameCommands(s, AnswerInfo(cfg, s, i, f, now).0)
  {
    if s.paths[i].proto != OutputConnected {
      var p1 := NoteBulle(cfg.paths[i], s.paths[i], Extracted(cfg, s, i, f.payload), now);
      RRKeepsCommands(cfg.paths[i], p1, f.nr, false, now);
    }
  }

  lemma FrameCommands(cfg: SysConf, s: Sys, i: nat, f: Frame, now: int, j: nat)
    requires Ready(cfg, s) && !s.crashed && i < |s.paths| && j < |s.paths|
    requires !Effect(cfg, s, Receive(i, f, now)).crashed
    ensures j < |Effect(cfg, s, Receive(i, f, now)).paths|
    ensures Effect(cfg, s, Receive(i, f, now)).paths[j].commands == CommandsAfter(cfg, s, Receive(i, f, now), j, s.paths[j].commands)
  {
    if Expressible(cfg.paths[i], f) {
      match f
      case UA => TransitionKeepsCommands(s, i, ReceivedUa, now);
      case SARM => TransitionKeepsCommands(SetPath(s, i, SendUA(s.paths[i], now)), i, ReceivedSarm, now);
      case RR(nr, final) => RRKeepsCommands(cfg.paths[i], s.paths[i], nr, final, now);
      case INFO(_, _, _, _) => InfoCommands(cfg, s, i, f, now, j);
    }
  }

  lemma InfoCommands(cfg: SysConf, s: Sys, i: nat, f: Frame, now: int, j: nat)
    requires Ready(cfg, s) && !s.crashed && i < |s.paths| && j < |s.paths| && f.INFO? && Expressible(cfg.paths[i], f)
    requires !FrameReceived(cfg, s, i, f, now).crashed
    ensures j < |FrameReceived(cfg, s, i, f, now).paths|
    ensures FrameReceived(cfg, s, i, f, now).paths[j].commands == CommandsAfter(cfg, s, Receive(i, f, now), j, s.paths[j].commands)
  {
    if s.paths[i].proto != Connection {
      var (s1, ms) := AnswerInfo(cfg, s, i, f, now);
      AnswerKeepsCommands(cfg, s, i, f, now);
      MessagesClear(cfg, s1, ms, now, j);
    }
  }

  lemma TimerKeepsCommands(cfg: SysConf, s: Sys, e: Event)
    requires Ready(cfg, s) && Concerns(s, e) && (e.Disconnect? || e.Manage? || e.Repeat? || e.Init?)
    ensures SameCommands(s, Effect(cfg, s, e))
  {
    match e
    case Disconnect(i, now) => TransitionKeepsCommands(s, i, TcpCnxLost, now);
    case Manage(i, now) => ManageKeepsCommands(cfg, s, i, now);
    case Repeat(i, current, now) => TransitionKeepsCommands(s, i, MaxSend, now);
    case Init(i, cal, now) => InitKeepsCommands(cfg, s, i, cal, now);
  }

  lemma ManageKeepsCommands(cfg: SysConf, s: Sys, i: nat, now: int)
    requires WellSized(cfg, s) && i < |s.paths|
    ensures SameCommands(s, ManageProtocolState(cfg, s, i, now))
  {
    if Sending(s.paths[i]) {
      TransitionKeepsCommands(SetPath(s, i, SendDueBulle(cfg.paths[i], s.paths[i], now)), i, ToRecv, now);
    } else {
      TransitionKeepsCommands(s, i, MaxSarmSent, now);
      TransitionKeepsCommands(s, i, ToRecv, now);
    }
  }

  lemma InitKeepsCommands(cfg: SysConf, s: Sys, i: nat, cal: Calendar, now: int)
    requires WellSized(cfg, s) && i < |s.paths|
    ensures SameCommands(s, CheckInit(cfg, s, i, cal, now))
  {
    if Settles(cfg, s.paths[i], now) && s.paths[i].conn == Active && s.sendInit {
      SendGiKeepsCommands(cfg, SendTime(cfg, SendDate(cfg, s, i, cal, now), i, cal, now), i, now);
    }
  }

  lemma CommandAdds(cfg: SysConf, s: Sys, m: Payload, kind: CommandKind, addr: int, now: int, j: nat)
    requires Ready(cfg, s) && s.active.Some? && s.paths[s.active.value].proto == Connected && j < |s.paths|
    ensures var i := s.active.value;
            var o := SendInfo(cfg.paths[i], s.paths[i], m, now);
            SetPath(s, i, RegisterCommand(cfg.paths[i], o.state, o.ok, kind, addr, now)).paths[j].commands
            == (if GoesOut(cfg, s, j) then [Command(kind, addr, now + cfg.paths[j].ackTimeMax)] else [])
               + s.paths[j].commands
  {
    assert [] + s.paths[j].commands == s.paths[j].commands;
  }

  lemma CommandEventCommands(cfg: SysConf, s: Sys, e: Event, j: nat)
    requires Ready(cfg, s) && Concerns(s, e) && j < |s.paths| && (e.TcCommand? || e.TvcCommand?)
    requires s.active.Some? ==> s.paths[s.active.value].proto == Connected
    ensures j < |Effect(cfg, s, e).paths| && Effect(cfg, s, e).paths[j].commands == CommandsAfter(cfg, s, e, j, s.paths[j].commands)
  {
    match e
    case TcCommand(address, value, now) => TcAdds(cfg, s, address, value, now, j);
    case TvcCommand(address, value, now) => TvcAdds(cfg, s, address, value, now, j);
  }

  lemma TcAdds(cfg: SysConf, s: Sys, address: int, value: Byte, now: int, j: nat)
    requires Ready(cfg, s) && j < |s.paths| && (s.active.Some? ==> s.paths[s.active.value].proto == Connected)
    ensures j < |SendTcCommand(cfg, s, address, value, now).paths|
    ensures SendTcCommand(cfg, s, address, value, now).paths[j].commands
            == CommandsAfter(cfg, s, TcCommand(address, value, now), j, s.paths[j].commands)
  {
    if s.active.Some? {
      CommandAdds(cfg, s, Commands.TcPayload(address, value), TC, address, now, j);
    }
    assert [] + s.paths[j].commands == s.paths[j].commands;
  }

  lemma TvcAdds(cfg: SysConf, s: Sys, address: Byte, value: int, now: int, j: nat)
    requires Ready(cfg, s) && j < |s.paths| && (s.active.Some? ==> s.paths[s.active.value].proto == Connected)
    ensures j < |SendTvcCommand(cfg, s, address, value, now).paths|
    ensures SendTvcCommand(cfg, s, address, value, now).paths[j].commands
            == CommandsAfter(cfg, s, TvcCommand(address, value, now), j, s.paths[j].commands)
  {
    if s.active.Some? {
      CommandAdds(cfg, s, Commands.TvcPayload(address, value), TVC, address, now, j);
    }
    assert [] + s.paths[j].commands == s.paths[j].commands;
  }

  lemma StepCommands(cfg: SysConf, s: Sys, e: Event, j: nat)
    requires Ready(cfg, s) && !s.crashed && j < |s.paths| && !Step(cfg, s, e).crashed
    requires s.active.Some? ==> s.paths[s.active.value].proto == Connected
    ensures j < |Step(cfg, s, e).paths| && Step(cfg, s, e).paths[j].commands == CommandsAfter(cfg, s, e, j, s.paths[j].commands)
  {
    assert [] + s.paths[j].commands == s.paths[j].commands;
    if Concerns(s, e) {
      match e
      case Receive(i, f, now) => FrameCommands(cfg, s, i, f, now, j);
      case TcCommand(_, _, _) => CommandEventCommands(cfg, s, e, j);
      case TvcCommand(_, _, _) => CommandEventCommands(cfg, s, e, j);
      case ExpireCommands(_, current) => InTimeIs(s.paths[j].commands, current);
      case GiTurn(current, now) => TurnKeepsCommands(cfg, s, current, now);
      case GiRequest(now) => RequestKeepsCommands(cfg, s, now);
      case _ => OtherStepCommands(cfg, s, e);
    }
  }

  lemma OtherStepCommands(cfg: SysConf, s: Sys, e: Event)
    requires Ready(cfg, s) && Concerns(s, e)
    requires e.Connect? || e.TcpLost? || e.Disconnect? || e.Stop? || e.Manage? || e.Repeat? || e.Init?
    ensures SameCommands(s, Effect(cfg, s, e))
  {
    if e.Disconnect? || e.Manage? || e.Repeat? || e.Init? {
      TimerKeepsCommands(cfg, s, e);
    }
  }

  // ---------------------------------------------------------------- whole runs

  /** The commands of path i that were sent at once and since then neither acknowledged nor overdue, newest first. */
  function PendingOf(cfg: SysConf, current: nat, now: int, evs: seq<Event>, i: nat): seq<Command> {
    if evs == [] then []
    else
      var init := evs[..|evs| - 1];
      var s := Reached(cfg, current, now, init);
      var before := PendingOf(cfg, current, now, init, i);
      if !Ready(cfg, s) || i >= |s.paths| then before
      else CommandsAfter(cfg, s, evs[|evs| - 1], i, before)
  }

  /** Main result. In every run those are the pending commands. */
  lemma {:induction false} PendingIs(cfg: SysConf, current: nat, now: int, evs: seq<Event>, i: nat)
    requires i < |cfg.paths| && !Reached(cfg, current, now, evs).crashed
    ensures i < |Reached(cfg, current, now, evs).paths|
    ensures Reached(cfg, current, now, evs).paths[i].commands == PendingOf(cfg, current, now, evs, i)
    decreases |evs|
  {
    if evs == [] {
      NoneAtFirst(cfg, current, now, i);
    } else {
      var init := evs[..|evs| - 1];
      var s := Reached(cfg, current, now, init);
      PendingIs(cfg, current, now, init, i);
      assert Ready(cfg, s) && (s.active.Some? ==> s.paths[s.active.value].proto == Connected) && |s.paths| == |cfg.paths| by {
        RunKeepsInv(cfg, current, now, init);
        InvIsReady(cfg, s);
        ActiveIsConnected(s);
      }
      StepCommands(cfg, s, evs[|evs| - 1], i);
    }
  }

  lemma NoneAtFirst(cfg: SysConf, current: nat, now: int, i: nat)
    requires i < |cfg.paths|
    ensures i < |Reached(cfg, current, now, []).paths| && Reached(cfg, current, now, []).paths[i].commands == []
  {
  }

  lemma ActiveIsConnected(s: Sys)
    requires ArbiterInv(s)
    ensures s.active.Some? ==> s.active.value < |s.paths| && s.paths[s.active.value].proto == Connected
  {
    if s.active.Some? {
      assert Abstracts(s.paths[s.active.value]);
    }
  }

  // ---------------------------------------------------------------- an acknowledgement arrives

  /** An acknowledgement: of a TC with its two address bytes, of a TVC with its address byte; the other bytes are
      free. */
  predicate IsAck(m: Payload) {
    (|m| == 3 && m[0] == 0x09) || (|m| == 4 && m[0] == 0x0a)
  }

  lemma AckIsWhole(bulle: (Byte, Byte), m: Payload)
    requires IsAck(m)
    ensures Messages.Uncut(bulle, m) && Messages.Extract(bulle, m) == [m] && WholeMessage(m)
  {
  }

  lemma AckNeverCrashes(cfg: SysConf, s: Sys, m: Payload, at: int)
    requires WellSized(cfg, s) && !s.crashed && IsAck(m) && WholeMessage(m)
    ensures !HandleMessages(cfg, s, [m], at).crashed
  {
    assert [m][1..] == [];
    assert HandleMessages(cfg, s, [m], at) == HandleMessage(cfg, s, m, at);
  }

  /** Main result. In every run, received with an NR that is taken on the path that delivers, an acknowledgement
      leaves on every path exactly the commands it does not acknowledge, in order. */
  lemma AckClears(cfg: SysConf, current: nat, now: int, evs: seq<Event>, k: nat, f: Frame, at: int, j: nat)
    requires k < |cfg.paths| && j < |cfg.paths| && !Reached(cfg, current, now, evs).crashed
    requires f.INFO? && IsAck(f.payload) && 0 <= f.ns < 8 && 0 <= f.nr < 8
    requires var s := Reached(cfg, current, now, evs);
             k < |s.paths| && CanExtract(s, k) && TakesNR(s.paths[k], f.nr)
    ensures var s := Reached(cfg, current, now, evs);
            var r := Step(cfg, s, Receive(k, f, at));
            && !r.crashed && j < |s.paths| && j < |r.paths|
            && r.paths[j].commands == Without(s.paths[j].commands, [f.payload])
            && forall c :: c in r.paths[j].commands <==> c in s.paths[j].commands && !Acknowledges(f.payload, c)
  {
    var s := Reached(cfg, current, now, evs);
    AckIsWhole(cfg.paths[k].bulleReceive, f.payload);
    HandedUpIff(cfg, current, now, evs, k, f, at);
    assert Ready(cfg, s) && InputOpen(s.paths[k]) && |s.paths| == |cfg.paths| by {
      RunKeepsInv(cfg, current, now, evs);
      InvIsReady(cfg, s);
      ExclusiveDelivery(cfg, current, now, evs, k, k);
    }
    AckStep(cfg, s, k, f, at, j);
    forall c ensures c in Without(s.paths[j].commands, [f.payload])
                     <==> c in s.paths[j].commands && !Acknowledges(f.payload, c)
    {
      WithoutMembers(s.paths[j].commands, [f.payload], c);
      assert f.payload in [f.payload];
    }
  }

  lemma AckStep(cfg: SysConf, s: Sys, k: nat, f: Frame, at: int, j: nat)
    requires Ready(cfg, s) && !s.crashed && k < |s.paths| && j < |s.paths| && InputOpen(s.paths[k])
    requires f.INFO? && IsAck(f.payload) && Expressible(cfg.paths[k], f) && WholeMessage(f.payload)
    requires AnswerInfo(cfg, s, k, f, at).1 == [f.payload]
    ensures var r := Step(cfg, s, Receive(k, f, at));
            !r.crashed && j < |r.paths| && r.paths[j].commands == Without(s.paths[j].commands, [f.payload])
  {
    var (s1, ms) := AnswerInfo(cfg, s, k, f, at);
    AnswerKeepsCommands(cfg, s, k, f, at);
    AckNeverCrashes(cfg, s1, f.payload, at);
    MessagesClear(cfg, s1, ms, at, j);
    InfoStep(cfg, s, k, f, at);
  }

  /** The acknowledgement that repeats the address bytes of a command. */
  predicate Repeats(m: Payload, kind: CommandKind, address: int, value: int) {
    var own := CommandPayload(kind, address, value);
    if kind == TC then |m| == 3 && m[0] == 0x09 && m[1] == own[1] && m[2] / 32 == own[2] / 32
    else |m| == 4 && m[0] == 0x0a && m[1] % 32 == own[1] % 32
  }

  /** The addresses that survive the coding. */
  predicate Codable(kind: CommandKind, address: int) {
    if kind == TC then 0 <= address && address % 10 <= 7 && address / 10 <= 255 else address % 256 < 32
  }

  lemma OwnAckIff(m: Payload, kind: CommandKind, address: int, value: int, deadline: int)
    requires Repeats(m, kind, address, value)
    ensures Acknowledges(m, Command(kind, PendingAddress(kind, address), deadline)) <==> Codable(kind, address)
  {
    if kind == TC {
      var own := Commands.TcPayload(address, value % 256);
      Commands.TcAddressRoundTrip(address, value % 256);
      Commands.JoinedAddressIs(own[1], own[2]);
    }
  }

  /** Main result. In every run a command that goes out at once on the active path is pending, and the
      acknowledgement that repeats its address bytes, received there next, ends that if and only if the address
      survives the coding. */
  lemma CommandIsCleared(cfg: SysConf, current: nat, now: int, evs: seq<Event>, kind: CommandKind, address: int,
                         value: int, at: int, m: Payload, ns: int, poll: bool, later: int)
    requires var s := Reached(cfg, current, now, evs);
             && !s.crashed && s.active.Some? && s.active.value < |s.paths| == |cfg.paths|
             && |s.paths[s.active.value].sent| < cfg.paths[s.active.value].ratio
    requires Repeats(m, kind, address, value) && 0 <= ns < 8
    ensures var s := Reached(cfg, current, now, evs);
            var i := s.active.value;
            var c := Command(kind, PendingAddress(kind, address), at + cfg.paths[i].ackTimeMax);
            var s1 := Step(cfg, s, CommandEvent(kind, address, value, at));
            && i < |s1.paths| && c in s1.paths[i].commands
            && var r := Step(cfg, s1, Receive(i, INFO(ns, s1.paths[i].nrr, poll, m), later));
               i < |r.paths| && (c !in r.paths[i].commands <==> Codable(kind, address))
  {
    var s := Reached(cfg, current, now, evs);
    var i := s.active.value;
    var e := CommandEvent(kind, address, value, at);
    CommandIsPendingIffSent(cfg, current, now, evs, kind, address, value, at);
    Continues(cfg, current, now, evs, e);
    StillActive(cfg, current, now, evs, kind, address, value, at);
    var s1 := Reached(cfg, current, now, evs + [e]);
    AckClears(cfg, current, now, evs + [e], i, INFO(ns, s1.paths[i].nrr, poll, m), later, i);
    OwnAckIff(m, kind, address, value, at + cfg.paths[i].ackTimeMax);
  }

  lemma StillActive(cfg: SysConf, current: nat, now: int, evs: seq<Event>, kind: CommandKind, address: int,
                    value: int, at: int)
    requires var s := Reached(cfg, current, now, evs); !s.crashed && s.active.Some?
    ensures var s := Reached(cfg, current, now, evs);
            var r := Reached(cfg, current, now, evs + [CommandEvent(kind, address, value, at)]);
            && !r.crashed && r.active == s.active && s.active.value < |r.paths| == |cfg.paths|
            && 0 <= r.paths[s.active.value].nrr < 8
  {
    var e := CommandEvent(kind, address, value, at);
    Continues(cfg, current, now, evs, e);
    RunKeepsInv(cfg, current, now, evs);
    InvIsReady(cfg, Reached(cfg, current, now, evs));
    CommandStep(cfg, Reached(cfg, current, now, evs), kind, address, value, at);
    NrrInRange(cfg, current, now, evs + [e], Reached(cfg, current, now, evs).active.value);
  }

  lemma NrrInRange(cfg: SysConf, current: nat, now: int, evs: seq<Event>, i: nat)
    requires i < |cfg.paths|
    ensures i < |Reached(cfg, current, now, evs).paths| == |cfg.paths| && 0 <= Reached(cfg, current, now, evs).paths[i].nrr < 8
  {
    RunKeepsInv(cfg, current, now, evs);
    ReachedLink(cfg, current, now, evs, i);
  }
}
