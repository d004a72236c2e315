/** One path: the object whose methods update the queues and counters in place. Each method is proved
    against the function of the same name on the fields, which the run properties are about. */
module HnzPathClass {
  import opened HnzTypes
  import Modulo8
  import Link
  import Commands

  class HnzPath {
    const id: nat              // position in the array of paths
    const conf: PathConf

    var proto: ProtocolState
    var conn: ConnectionState
    var tcp: bool
    var sent: seq<Message>
    var waiting: seq<Payload>
    var commands: seq<Command>
    var nr: int
    var ns: int
    var nrr: int
    var repeat: int
    var sarmSent: int
    var lastSent: int
    var lastMsg: int
    var lastMsgSent: int
    var lastSarm: int
    var lastConnected: int
    ghost var h: History

    ghost function State(): PathState
      reads this
    {
      PathState(proto, conn, tcp, sent, waiting, commands, nr, ns, nrr, repeat, sarmSent,
                lastSent, lastMsg, lastMsgSent, lastSarm, lastConnected, h)
    }

    /** The constructor ends with the actions of the CONNECTION state; the arbiter does not know the
        path yet, so its state stays DISCONNECTED. */
    constructor (id: nat, conf: PathConf, now: int)
      ensures this.id == id && this.conf == conf
      ensures State() == Link.ResetSarmCounters(FRESH_PATH, now)
    {
      this.id, this.conf := id, conf;
      proto, conn, tcp := Connection, Disconnected, false;
      sent, waiting, commands := [], [], [];
      nr, ns, nrr, repeat, sarmSent := 0, 0, 0, 0, 0;
      lastSent, lastMsg, lastMsgSent, lastSarm, lastConnected := 0, 0, 0, 0, 0;
      h := EMPTY_HISTORY;
      new;
      ResetInputVariables(now);
      ResetOutputVariables();
      ResetSarmCounters(now);
      lastSarm := 0;
    }

    method SendFrame(f: Frame, ghost idx: nat, now: int)
      modifies this
      ensures State() == Link.SendFrame(old(State()), f, idx, now)
    {
      h := h.(wire := h.wire + [Tx(f, proto, idx, |h.rcv|)]);
      lastMsgSent := now;
    }

    method SendInfoImmediately(p: Payload, now: int) returns (ok: bool)
      modifies this
      ensures Link.Outcome(State(), ok) == Link.SendInfoImmediately(conf, old(State()), p, now)
    {
      if proto != Connected && !(proto == OutputConnected && Link.IsBulle(conf, p)) {
        return false;
      }
      SendFrame(INFO(ns, nr, false, p), |h.txs|, now);
      if sent == [] {
        lastSent := now;
      }
      sent := sent + [Message(ns, p)];
      ns := (ns + 1) % 8;
      h := h.(txs := h.txs + [p]);
      return true;
    }

    method SendInfo(p: Payload, now: int) returns (ok: bool)
      modifies this
      ensures Link.Outcome(State(), ok) == Link.SendInfo(conf, old(State()), p, now)
    {
      if proto != Connected && !(proto == OutputConnected && Link.IsBulle(conf, p)) {
        return false;
      }
      h := h.(accepted := h.accepted + [p], submitted := h.submitted + [p]);
      if |sent| < conf.ratio {
        ok := SendInfoImmediately(p, now);
      } else {
        waiting := waiting + [p];
        ok := false;
      }
    }

    method SendBackInfo(now: int)
      requires sent != []
      modifies this
      ensures State() == Link.SendBackInfo(old(State()), now)
    {
      repeat := repeat + 1;
      SendFrame(INFO(sent[0].ns, nr, true, sent[0].payload), h.va, now);
      lastSent := now;
    }

    /** The end of a timeout in m_check_timer: the unacknowledged messages move, last one first, to the front
        of the waiting queue; only the oldest stays in flight. */
    method Requeue()
      requires sent != []
      modifies this`sent, this`waiting, this`h
      ensures State() == Link.Requeue(old(State()))
    {
      h := h.(multi := h.multi || |sent| > 1);
      KeepOldest();
    }

    /** The loop of m_check_timer. */
    method KeepOldest()
      requires sent != []
      modifies this`sent, this`waiting
      ensures sent == old(sent)[..1] && waiting == Payloads(old(sent)[1..]) + old(waiting)
    {
      ghost var all, rest := sent, waiting;
      while |sent| > 1
        invariant 1 <= |sent| <= |all| && sent == all[..|sent|]
        invariant waiting == Payloads(all[|sent|..]) + rest
      {
        var n := |sent| - 1;
        assert Payloads(all[n..]) == [all[n].payload] + Payloads(all[n + 1..]);
        waiting := [sent[n].payload] + waiting;
        sent := sent[..n];
      }
    }

    method NRAccepted(newNr: int, now: int)
      requires Link.WaitingSendable(conf, State())
      modifies this
      ensures State() == Link.NRAccepted(conf, old(State()), newNr, now)
    {
      ghost var s := State();
      PopAcknowledged(newNr, now);
      while waiting != [] && |sent| < conf.ratio
        invariant Link.WaitingSendable(conf, State())
        invariant Link.Refill(conf, State(), now) == Link.NRAccepted(conf, s, newNr, now)
        decreases |waiting|
      {
        ghost var before := State();
        assert waiting[0] in waiting;
        SendFirstWaiting(now);
        Link.RefillUnfolds(conf, before, now);
      }
    }

    /** One turn of the refill loop. */
    method SendFirstWaiting(now: int)
      requires waiting != [] && Link.MaySend(conf, proto, waiting[0])
      modifies this
      ensures State() == Link.RefillOnce(conf, old(State()), now)
    {
      var ok := SendInfoImmediately(waiting[0], now);
      if ok {
        waiting := waiting[1..];
      }
    }

    /** The first half of m_NRAccepted, up to the timer. */
    method PopAcknowledged(newNr: int, now: int)
      modifies this
      ensures State() == Link.Pop(old(State()), newNr, now)
    {
      Modulo8.OffsetInC(nrr, newNr);
      var offset := Modulo8.CRemainder(Modulo8.CRemainder(newNr - nrr, 8) + 8, 8);
      ghost var gone := Payloads(sent[..if offset < |sent| then offset else |sent|]);
      PopFront(offset);
      NoteAccepted(newNr, offset, gone, now);
    }

    method NoteAccepted(newNr: int, ghost offset: nat, ghost gone: seq<Payload>, now: int)
      modifies this
      ensures State() == old(State()).(
                nrr := newNr,
                repeat := 0,
                lastSent := if old(sent) != [] then now else old(lastSent),
                h := old(h).(va := old(h).va + offset, popped := old(h).popped + gone,
                             acknowledged := old(h).acknowledged + gone,
                             lost := old(h).lost || old(h).multi, mark := |old(h).wire|))
    {
      h := h.(va := h.va + offset, popped := h.popped + gone, acknowledged := h.acknowledged + gone,
              lost := h.lost || h.multi, mark := |h.wire|);
      nrr := newNr;
      repeat := 0;
      if sent != [] {
        lastSent := now;
      }
    }

    method PopFront(count: nat)
      modifies this`sent
      ensures sent == old(sent)[if count < |old(sent)| then count else |old(sent)|..]
    {
      ghost var all := sent;
      ghost var n := 0;
      var i := 0;
      while i < count
        invariant 0 <= n <= i <= count && n <= |all| && (n < i ==> n == |all|)
        invariant sent == all[n..]
      {
        if sent != [] {
          assert all[n..][1..] == all[n + 1..];
          sent := sent[1..];
          n := n + 1;
        }
        i := i + 1;
      }
    }

    method ReceivedRR(newNr: int, repetition: bool, now: int) returns (ok: bool)
      requires Link.WaitingSendable(conf, State())
      modifies this
      ensures Link.Outcome(State(), ok) == Link.ReceivedRR(conf, old(State()), newNr, repetition, now)
    {
      if newNr != nrr {
        var valid := IsNRValid(newNr);
        if valid {
          if !repetition || repeat > 0 {
            NRAccepted(newNr, now);
          } else {
            return false;
          }
        } else {
          return false;
        }
      }
      return true;
    }

    method IsNRValid(newNr: int) returns (frameOk: bool)
      ensures frameOk == Modulo8.IsNRValid(nrr, ns, newNr)
    {
      frameOk := true;
      if newNr != nrr {
        frameOk := nrr < newNr && newNr <= ns;
        if ns < nrr {
          if nrr < newNr {
            frameOk := true;
          } else if newNr <= ns {
            frameOk := true;
          }
        }
      }
    }

    method SendRR(repetition: bool, frameNs: int, frameNr: int, ghost p: Payload, ghost handedUp: bool, now: int)
      returns (ok: bool)
      requires Link.WaitingSendable(conf, State())
      modifies this
      ensures Link.Outcome(State(), ok) == Link.SendRR(conf, old(State()), repetition, frameNs, frameNr, p, handedUp, now)
    {
      ok := ReceivedRR(frameNr, false, now);
      if !ok {
        return;
      }
      h := Link.NoteFrame(h, frameNs == nr, handedUp, p);
      if frameNs == nr {
        nr := (nr + 1) % 8;
        SendFrame(RR(nr, repetition), 0, now);
      } else if repetition {
        SendFrame(RR(nr, true), 0, now);
      }
      lastMsg := now;
    }

    method SendSARM(now: int)
      modifies this
      ensures State() == Link.SendSARM(old(State()), now)
    {
      SendFrame(SARM, 0, now);
      sarmSent := sarmSent + 1;
      lastSarm := now;
    }

    method SendUA(now: int)
      modifies this
      ensures State() == Link.SendUA(old(State()), now)
    {
      SendFrame(UA, 0, now);
    }

    method ResetSarmCounters(now: int)
      modifies this
      ensures State() == Link.ResetSarmCounters(old(State()), now)
    {
      sarmSent := 0;
      lastMsg := now;
    }

    method ResetOutputVariables()
      modifies this
      ensures State() == Link.ResetOutputVariables(old(State()))
    {
      ns := 0;
      nrr := 0;
      repeat := 0;
      h := h.(submitted := [], txs := [], popped := [], va := 0, multi := false, lost := false,
              mark := |h.wire|);
    }

    method ResetInputVariables(now: int)
      modifies this
      ensures State() == Link.ResetInputVariables(old(State()), now)
    {
      nr := 0;
      lastMsg := now;
      h := h.(rcv := [], up := [], duplicates := 0, missed := 0);
    }

    method DiscardMessages()
      modifies this
      ensures State() == Link.DiscardMessages(old(State()))
    {
      h := h.(discarded := h.discarded + Payloads(sent) + waiting);
      if sent != [] {
        sent := [];
      }
      if waiting != [] {
        waiting := [];
      }
    }

    method RegisterCommandIfSent(wasSent: bool, kind: CommandKind, addr: int, now: int)
      modifies this
      ensures State() == Link.RegisterCommand(conf, old(State()), wasSent, kind, addr, now)
    {
      if !wasSent {
        return;
      }
      commands := [Command(kind, addr, now + conf.ackTimeMax)] + commands;
    }

    method SendTCCommand(address: int, value: Byte, now: int) returns (ok: bool)
      modifies this
      ensures var r := Link.SendInfo(conf, old(State()), Commands.TcPayload(address, value), now);
              ok == r.ok && State() == Link.RegisterCommand(conf, r.state, r.ok, TC, address, now)
    {
      ok := SendInfo(Commands.TcPayload(address, value), now);
      RegisterCommandIfSent(ok, TC, address, now);
    }

    method SendTVCCommand(address: Byte, value: int, now: int) returns (ok: bool)
      modifies this
      ensures var r := Link.SendInfo(conf, old(State()), Commands.TvcPayload(address, value), now);
              ok == r.ok && State() == Link.RegisterCommand(conf, r.state, r.ok, TVC, address, now)
    {
      ok := SendInfo(Commands.TvcPayload(address, value), now);
      RegisterCommandIfSent(ok, TVC, address, now);
    }

    method ReceivedCommandACK(kind: CommandKind, addr: int)
      modifies this`commands
      ensures State() == old(State()).(commands := Commands.Unacknowledged(old(commands), kind, addr))
    {
      ghost var all := commands;
      ghost var seen := 0;
      var i := 0;
      while i < |commands|
        invariant 0 <= i <= |commands| && 0 <= seen <= |all|
        invariant commands[..i] == Commands.Unacknowledged(all[..seen], kind, addr)
        invariant commands[i..] == all[seen..]
        decreases |commands| - i
      {
        NextCommand(commands, i, all, seen);
        if commands[i].kind == kind && commands[i].addr == addr {
          commands := commands[..i] + commands[i + 1..];
        } else {
          i := i + 1;
        }
        seen := seen + 1;
      }
      assert all[..seen] == all && commands[..i] == commands;
    }

    /** The expiry loop of m_check_command_timer. */
    method ExpireCommands(current: int)
      modifies this`commands
      ensures State() == old(State()).(commands := Commands.Unexpired(old(commands), current))
    {
      ghost var all := commands;
      ghost var seen := 0;
      var i := 0;
      while i < |commands|
        invariant 0 <= i <= |commands| && 0 <= seen <= |all|
        invariant commands[..i] == Commands.Unexpired(all[..seen], current)
        invariant commands[i..] == all[seen..]
        decreases |commands| - i
      {
        NextCommand(commands, i, all, seen);
        if commands[i].deadline < current {
          commands := commands[..i] + commands[i + 1..];
        } else {
          i := i + 1;
        }
        seen := seen + 1;
      }
      assert all[..seen] == all && commands[..i] == commands;
    }
  }

  /** The list in the middle of a pass that removes some of its elements: what was seen, what comes. */
  lemma NextCommand(cmds: seq<Command>, i: nat, all: seq<Command>, seen: nat)
    requires i < |cmds| && seen <= |all| && cmds[i..] == all[seen..]
    ensures seen < |all| && cmds[i] == all[seen] && cmds[i + 1..] == all[seen + 1..]
    ensures all[..seen + 1][..seen] == all[..seen] && all[..seen + 1][seen] == all[seen]
    ensures cmds[..i + 1] == cmds[..i] + [cmds[i]]
    ensures var left := cmds[..i] + cmds[i + 1..]; left[..i] == cmds[..i] && left[i..] == all[seen + 1..]
  {
    assert cmds[i] == cmds[i..][0] == all[seen];
    assert cmds[i + 1..] == cmds[i..][1..] && all[seen + 1..] == all[seen..][1..];
  }
}
