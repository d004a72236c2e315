/** The main results over whole runs of the plugin: any number of paths, any sequence of events, any
    clock readings. */
module Theorems {
  import opened HnzTypes
  import opened Modulo8
  import opened GiLog
  import opened Link
  import opened LinkInvariants
  import opened HnzSystem
  import opened Arbitration
  import opened SystemInvariants
  import Commands
  import Messages

  /** The state after a run. */
  function Reached(cfg: SysConf, current: nat, now: int, evs: seq<Event>): Sys {
    Run(cfg, Initial(cfg, current, now), evs)
  }

  lemma Continues(cfg: SysConf, current: nat, now: int, evs: seq<Event>, e: Event)
    ensures Reached(cfg, current, now, evs + [e]) == Step(cfg, Reached(cfg, current, now, evs), e)
  {
    assert (evs + [e])[..|evs|] == evs;
  }

  lemma ReachedLink(cfg: SysConf, current: nat, now: int, evs: seq<Event>, i: nat)
    requires i < |cfg.paths|
    ensures i < |Reached(cfg, current, now, evs).paths|
    ensures LinkInv(cfg.paths[i], Reached(cfg, current, now, evs).paths[i])
  {
    RunKeepsInv(cfg, current, now, evs);
  }

  /** At most one path is ACTIVE and it is the one the arbiter points to; the connection is STARTED
      exactly while there is one; while running, no path is PASSIVE without one. */
  lemma OneActivePath(cfg: SysConf, current: nat, now: int, evs: seq<Event>)
    ensures var s := Reached(cfg, current, now, evs);
            && (forall i | 0 <= i < |s.paths| :: s.paths[i].conn == Active <==> s.active == Some(i))
            && (s.active.Some? ==> s.active.value < |s.paths|)
            && (s.fledge.connStatus == Started <==> s.active.Some?)
            && (s.running && s.active.None? ==> forall i | 0 <= i < |s.paths| :: s.paths[i].conn != Passive)
            && (s.active.None? ==> s.sendInit)
  {
    RunKeepsInv(cfg, current, now, evs);
  }

  /** The connection state is a function of the protocol state, up to the choice the arbiter makes. */
  lemma ConnectionStateAbstractsProtocol(cfg: SysConf, current: nat, now: int, evs: seq<Event>, i: nat)
    requires i < |cfg.paths|
    ensures var s := Reached(cfg, current, now, evs);
            && i < |s.paths|
            && var p := s.paths[i];
               && (p.conn == Disconnected <==> p.proto == Connection)
               && (p.conn == PendingHnz <==> p.proto == InputConnected || p.proto == OutputConnected)
               && (p.conn == Active || p.conn == Passive <==> p.proto == Connected)
  {
    RunKeepsInv(cfg, current, now, evs);
    assert Abstracts(Reached(cfg, current, now, evs).paths[i]);
  }

  /** At most one path may hand up messages, and only a path whose input is open. The memory of the
      first such path is never stale; it may be empty. */
  lemma ExclusiveDelivery(cfg: SysConf, current: nat, now: int, evs: seq<Event>, i: nat, j: nat)
    ensures var s := Reached(cfg, current, now, evs);
            && (CanExtract(s, i) && CanExtract(s, j) ==> i == j)
            && (CanExtract(s, i) ==> i < |s.paths| && InputOpen(s.paths[i]))
            && (s.first.Some? ==> s.first.value < |s.paths| && InputOpen(s.paths[s.first.value]))
  {
    RunKeepsInv(cfg, current, now, evs);
    var s := Reached(cfg, current, now, evs);
    if s.active == Some(i) {
      assert Abstracts(s.paths[i]);
    }
  }

  /** The messages of an information frame are handed up exactly when its path is the one that may deliver
      and its NR is accepted, and then all of them. The NS of the frame has no part in it: a repeated
      frame is handed up again. */
  lemma HandedUpIff(cfg: SysConf, current: nat, now: int, evs: seq<Event>,
                                    i: nat, f: Frame, at: int)
    requires i < |cfg.paths| && f.INFO? && Expressible(cfg.paths[i], f)
    ensures var s := Reached(cfg, current, now, evs);
            && Ready(cfg, s) && i < |s.paths|
            && AnswerInfo(cfg, s, i, f, at).1
               == (if CanExtract(s, i) && (f.nr == s.paths[i].nrr || IsNRValid(s.paths[i].nrr, s.paths[i].ns, f.nr))
                   then Messages.Extract(cfg.paths[i].bulleReceive, f.payload) else [])
  {
    RunKeepsInv(cfg, current, now, evs);
    var s := Reached(cfg, current, now, evs);
    InvIsReady(cfg, s);
    ExclusiveDelivery(cfg, current, now, evs, i, i);
  }

  /** Wire safety: no information frame but a BULLE was ever sent, for the first time or again, outside
      CONNECTED, and none at all outside CONNECTED and OUTPUT_CONNECTED. */
  lemma WireIsSafe(cfg: SysConf, current: nat, now: int, evs: seq<Event>, i: nat, t: Transmission)
    requires i < |cfg.paths|
    ensures var s := Reached(cfg, current, now, evs);
            && i < |s.paths|
            && (t in s.paths[i].h.wire && t.frame.INFO? ==>
                  t.proto == Connected || (t.proto == OutputConnected && IsBulle(cfg.paths[i], t.frame.payload)))
  {
    ReachedLink(cfg, current, now, evs, i);
  }

  /** Queues and refill loop: the queues fit the protocol state, so no send of the refill loop is ever
      refused and the loop ends, with the window full or nothing waiting, in the same order. */
  lemma QueuesFitAndRefillEnds(cfg: SysConf, current: nat, now: int, evs: seq<Event>, i: nat, nr: int, at: int)
    requires i < |cfg.paths| && 0 <= nr < 8
    ensures var s := Reached(cfg, current, now, evs);
            && i < |s.paths|
            && var c, p := cfg.paths[i], s.paths[i];
               && (p.proto == Connection || p.proto == InputConnected ==> p.sent == [] && p.waiting == [])
               && (p.proto == OutputConnected ==> AllBulles(c, p))
               && (nr != p.nrr && IsNRValid(p.nrr, p.ns, nr) ==>
                     && var q := Pop(p, nr, at);
                        && WaitingSendable(c, q)
                        && (Refill(c, q, at).waiting == [] || |Refill(c, q, at).sent| == c.ratio)
                        && Payloads(Refill(c, q, at).sent) + Refill(c, q, at).waiting == Payloads(q.sent) + q.waiting)
  {
    ReachedLink(cfg, current, now, evs, i);
    var s := Reached(cfg, current, now, evs);
    var c, p := cfg.paths[i], s.paths[i];
    if nr != p.nrr && IsNRValid(p.nrr, p.ns, nr) {
      PopKeepsInv(c, p, nr, at);
      RefillKeepsInv(c, Pop(p, nr, at), at);
    }
  }

  /** The three-bit window refines the unbounded one: in OUTPUT_CONNECTED and CONNECTED, as long as no
      timeout put two or more messages in flight back to waiting, the messages in flight are exactly those
      from VA to VS, in acceptance order. */
  lemma WindowIsExact(cfg: SysConf, current: nat, now: int, evs: seq<Event>, i: nat)
    requires i < |cfg.paths|
    ensures var s := Reached(cfg, current, now, evs);
            && i < |s.paths|
            && var p := s.paths[i];
               Sending(p) && !p.h.multi ==>
                 var va, vs := p.h.va, |p.h.txs|;
                 && va <= vs && p.nrr == va % 8 && p.ns == vs % 8
                 && |p.sent| == vs - va <= cfg.paths[i].ratio
                 && (forall k | 0 <= k < |p.sent| :: p.sent[k] == Message((va + k) % 8, p.h.txs[va + k]))
                 && p.h.popped == p.h.txs[..va]
                 && p.h.submitted == p.h.txs + p.waiting
                 && (p.waiting != [] ==> |p.sent| == cfg.paths[i].ratio)
  {
    ReachedLink(cfg, current, now, evs, i);
    var p := Reached(cfg, current, now, evs).paths[i];
    if Sending(p) && !p.h.multi {
      InFlightIs(cfg.paths[i], p);
    }
  }

  lemma InFlightIs(c: PathConf, p: PathState)
    requires ExactWindow(c, p)
    ensures forall k | 0 <= k < |p.sent| :: p.sent[k] == Message((p.h.va + k) % 8, p.h.txs[p.h.va + k])
  {
    forall k | 0 <= k < |p.sent| ensures p.sent[k] == Message((p.h.va + k) % 8, p.h.txs[p.h.va + k]) {
      assert p.sent[k].payload == Payloads(p.sent)[k] == p.h.txs[p.h.va..][k];
    }
  }

  /** In such a state, with an anticipation ratio of at most seven, an NR is accepted exactly when it
      stands for a number of the window, that number is unique, and exactly the messages before it go. */
  lemma NRMeansOneNumber(cfg: SysConf, current: nat, now: int, evs: seq<Event>, i: nat, nr: int, at: int)
    requires i < |cfg.paths| && cfg.paths[i].ratio <= 7 && 0 <= nr < 8
    ensures var s := Reached(cfg, current, now, evs);
            && i < |s.paths|
            && var p := s.paths[i];
               Sending(p) && !p.h.multi ==>
                 && (IsNRValid(p.nrr, p.ns, nr) <==> exists k: nat :: Denotes(p.h.va, |p.h.txs|, nr, k))
                 && (forall k: nat :: Denotes(p.h.va, |p.h.txs|, nr, k) ==>
                       k - p.h.va <= |p.sent| && Pop(p, nr, at).sent == p.sent[k - p.h.va..])
  {
    ReachedLink(cfg, current, now, evs, i);
    var s := Reached(cfg, current, now, evs);
    var p := s.paths[i];
    if Sending(p) && !p.h.multi {
      NRValidExact(p.h.va, |p.h.txs|, nr);
      forall k: nat | Denotes(p.h.va, |p.h.txs|, nr, k)
        ensures k - p.h.va <= |p.sent| && Pop(p, nr, at).sent == p.sent[k - p.h.va..]
      {
        PopMovesWindow(cfg.paths[i], p, k - p.h.va, nr, at);
      }
    }
  }

  /** With several messages in flight at a timeout: until an NR is accepted after it, the window is ahead
      of the queue by at most ratio-1 for each repeat, so it stays within the bound below. */
  lemma DriftIsBounded(cfg: SysConf, current: nat, now: int, evs: seq<Event>, i: nat)
    requires i < |cfg.paths| && cfg.paths[i].ratio >= 1
    ensures var s := Reached(cfg, current, now, evs);
            && i < |s.paths|
            && var c, p := cfg.paths[i], s.paths[i];
               Sending(p) && !p.h.lost ==>
                 && 0 <= |p.h.txs| - p.h.va - |p.sent| <= p.repeat * (c.ratio - 1)
                 && |p.h.txs| - p.h.va <= WidestWindow(c)
  {
    ReachedLink(cfg, current, now, evs, i);
    var p := Reached(cfg, current, now, evs).paths[i];
    if Sending(p) && !p.h.lost {
      WindowIsBounded(cfg.paths[i], p);
    }
  }

  /** Whatever NRs were accepted after a timeout: the queue never holds more messages than the window. */
  lemma QueueFitsWindow(cfg: SysConf, current: nat, now: int, evs: seq<Event>, i: nat)
    requires i < |cfg.paths|
    ensures var s := Reached(cfg, current, now, evs);
            && i < |s.paths| && (Sending(s.paths[i]) ==> s.paths[i].h.va + |s.paths[i].sent| <= |s.paths[i].h.txs|)
  {
    ReachedLink(cfg, current, now, evs, i);
  }

  lemma WindowIsBounded(c: PathConf, p: PathState)
    requires LinkInv(c, p) && Sending(p) && !p.h.lost && c.ratio >= 1
    ensures 0 <= |p.h.txs| - p.h.va - |p.sent| <= p.repeat * (c.ratio - 1)
    ensures |p.h.txs| - p.h.va <= WidestWindow(c)
  {
    DriftLimitIs(c, p.repeat);
    DriftLimitIs(c, Repeats(c));
    DriftLimitGrows(c, p.repeat, Repeats(c));
  }

  function Repeats(c: PathConf): nat {
    if c.repeatMax < 0 then 0 else c.repeatMax
  }

  function WidestWindow(c: PathConf): int {
    c.ratio + Repeats(c) * (c.ratio - 1)
  }

  /** Every accepted message is, once, acknowledged, in flight, waiting or discarded. */
  lemma NothingIsLost(cfg: SysConf, current: nat, now: int, evs: seq<Event>, i: nat, m: Payload)
    requires i < |cfg.paths|
    ensures var s := Reached(cfg, current, now, evs);
            && i < |s.paths|
            && var p := s.paths[i];
               multiset(p.h.accepted)[m] == multiset(p.h.acknowledged)[m] + multiset(Payloads(p.sent))[m]
                                            + multiset(p.waiting)[m] + multiset(p.h.discarded)[m]
  {
    ReachedLink(cfg, current, now, evs, i);
    assert Conserved(Reached(cfg, current, now, evs).paths[i]);
  }

  /** Bounded persistence, whatever happens in between: SARMs in a row, and repetitions put on the wire
      since the last accepted NR or output reset. */
  lemma PersistenceIsBounded(cfg: SysConf, current: nat, now: int, evs: seq<Event>, i: nat)
    requires i < |cfg.paths|
    ensures var s := Reached(cfg, current, now, evs);
            && i < |s.paths|
            && (cfg.paths[i].maxSarm >= 1 ==> 0 <= s.paths[i].sarmSent <= cfg.paths[i].maxSarm)
            && s.paths[i].h.mark <= |s.paths[i].h.wire|
            && s.paths[i].repeat == Resends(s.paths[i].h.wire[s.paths[i].h.mark..]) <= Repeats(cfg.paths[i])
  {
    ReachedLink(cfg, current, now, evs, i);
  }

  /** The counter of GI requests is the number of requests reported sent since the last end of a GI or loss
      of the active path; a campaign runs only on an active path and shows it; only configured addresses
      count as received. */
  lemma CampaignHasActivePath(cfg: SysConf, current: nat, now: int, evs: seq<Event>)
    ensures var s := Reached(cfg, current, now, evs);
            && s.giRepeat == SentSince(s.giLog)
            && (s.giRepeat > 0 ==> s.active.Some? && (s.fledge.giStatus == GiStarted || s.fledge.giStatus == GiInProgress))
            && (forall a | a in s.fledge.giReceived :: a in cfg.tsAddresses)
  {
    RunKeepsInv(cfg, current, now, evs);
  }

  /** The payload of a command; a TVC has eight bits of address, a TC eight bits of value. */
  function CommandPayload(kind: CommandKind, address: int, value: int): Payload {
    if kind == TC then Commands.TcPayload(address, value % 256) else Commands.TvcPayload(address % 256, value)
  }

  function PendingAddress(kind: CommandKind, address: int): int {
    if kind == TC then address else address % 256
  }

  /** The command as the operation of Fledge hands it over: the bytes are cut out of the numbers there. */
  function CommandEvent(kind: CommandKind, address: int, value: int, at: int): Event {
    if kind == TC then TcCommand(address, value % 256, at) else TvcCommand(address % 256, value, at)
  }

  /** A command handed to the active path is always accepted, but its acknowledgement is waited for only if
      the window had room for it. Without room it waits for its turn on the wire, and nothing remembers it
      as pending. */
  lemma CommandIsPendingIffSent(cfg: SysConf, current: nat, now: int, evs: seq<Event>,
                                kind: CommandKind, address: int, value: int, at: int)
    ensures var s := Reached(cfg, current, now, evs);
            var r := Step(cfg, s, CommandEvent(kind, address, value, at));
            var m := CommandPayload(kind, address, value);
            if s.active.None? || s.crashed then r == s
            else
              && var i := s.active.value;
                 && i < |s.paths| == |r.paths| == |cfg.paths|
                 && var c, p, q := cfg.paths[i], s.paths[i], r.paths[i];
                    && q.h.accepted == p.h.accepted + [m]
                    && (if |p.sent| < c.ratio then
                          && q.commands == [Command(kind, PendingAddress(kind, address), at + c.ackTimeMax)] + p.commands
                          && q.h.wire == p.h.wire + [Tx(INFO(p.ns, p.nr, false, m), Connected, |p.h.txs|, |p.h.rcv|)]
                        else q.commands == p.commands && q.h.wire == p.h.wire && q.waiting == p.waiting + [m])
  {
    RunKeepsInv(cfg, current, now, evs);
    var s := Reached(cfg, current, now, evs);
    InvIsReady(cfg, s);
    CommandStep(cfg, s, kind, address, value, at);
    if s.active.Some? {
      var i := s.active.value;
      assert Abstracts(s.paths[i]);
      CommandOutcome(cfg.paths[i], s.paths[i], kind, CommandPayload(kind, address, value), PendingAddress(kind, address), at);
    }
  }

  lemma CommandStep(cfg: SysConf, s: Sys, kind: CommandKind, address: int, value: int, at: int)
    requires Ready(cfg, s)
    ensures var r := Step(cfg, s, CommandEvent(kind, address, value, at));
            if s.crashed || s.active.None? then r == s
            else
              var i := s.active.value;
              var o := SendInfo(cfg.paths[i], s.paths[i], CommandPayload(kind, address, value), at);
              r == SetPath(s, i, RegisterCommand(cfg.paths[i], o.state, o.ok, kind, PendingAddress(kind, address), at))
  {
  }

  lemma CommandOutcome(c: PathConf, p: PathState, kind: CommandKind, m: Payload, addr: int, at: int)
    requires p.proto == Connected
    ensures var o := SendInfo(c, p, m, at);
            var q := RegisterCommand(c, o.state, o.ok, kind, addr, at);
            && q.h.accepted == p.h.accepted + [m]
            && (if |p.sent| < c.ratio then
                  && q.commands == [Command(kind, addr, at + c.ackTimeMax)] + p.commands
                  && q.h.wire == p.h.wire + [Tx(INFO(p.ns, p.nr, false, m), Connected, |p.h.txs|, |p.h.rcv|)]
                else q.commands == p.commands && q.h.wire == p.h.wire && q.waiting == p.waiting + [m])
  {
  }

  /** The only way a step ends the program: messages of an information frame complete a GI while another
      is delayed and no path is active any more. Timers, timeouts and commands never do. */
  lemma OnlyDeliveryCrashes(cfg: SysConf, current: nat, now: int, evs: seq<Event>, e: Event)
    ensures var s := Reached(cfg, current, now, evs);
            var r := Step(cfg, s, e);
            && (r.crashed ==> r.active.None? && r.fledge.giInQueue)
            && (r.crashed && !s.crashed ==> e.Receive? && e.frame.INFO?)
  {
    RunKeepsInv(cfg, current, now, evs);
    var s := Reached(cfg, current, now, evs);
    StepKeepsInv(cfg, s, e);
    if !s.crashed && Concerns(s, e) && !(e.Receive? && e.frame.INFO?) {
      InvIsReady(cfg, s);
      QuietEvents(cfg, s, e);
    }
  }

  lemma QuietEvents(cfg: SysConf, s: Sys, e: Event)
    requires SysInv(cfg, s) && !s.crashed && Ready(cfg, s) && Concerns(s, e)
    requires !(e.Receive? && e.frame.INFO?)
    ensures !Effect(cfg, s, e).crashed
  {
    match e
    case Disconnect(i, now) => TransitionKeepsInv(cfg, s, i, TcpCnxLost, now);
    case Receive(i, f, now) => QuietFrames(cfg, s, i, f, now);
    case Manage(_, _) => TurnsAreQuiet(cfg, s, e);
    case Repeat(_, _, _) => TurnsAreQuiet(cfg, s, e);
    case Init(_, _, _) => TurnsAreQuiet(cfg, s, e);
    case GiTurn(_, _) => TurnsAreQuiet(cfg, s, e);
    case GiRequest(now) => RequestGiKeepsInv(cfg, s, now);
    case _ => PathEventsAreQuiet(cfg, s, e);
  }

  lemma TurnsAreQuiet(cfg: SysConf, s: Sys, e: Event)
    requires SysInv(cfg, s) && !s.crashed && Ready(cfg, s) && Concerns(s, e)
    requires e.Manage? || e.Repeat? || e.Init? || e.GiTurn?
    ensures !Effect(cfg, s, e).crashed
  {
    match e
    case Manage(i, now) => ManageKeepsInv(cfg, s, i, now);
    case Repeat(i, current, now) => RepeatKeepsInv(cfg, s, i, current, now);
    case Init(i, cal, now) => InitKeepsInv(cfg, s, i, cal, now);
    case GiTurn(current, now) => CheckGiKeepsInv(cfg, s, current, now);
  }

  /** Events that touch nothing but the fields of one path. */
  lemma PathEventsAreQuiet(cfg: SysConf, s: Sys, e: Event)
    requires !s.crashed && Ready(cfg, s) && Concerns(s, e)
    requires e.Connect? || e.TcpLost? || e.Stop? || e.ExpireCommands? || e.TcCommand? || e.TvcCommand?
    ensures !Effect(cfg, s, e).crashed
  {
  }

  lemma QuietFrames(cfg: SysConf, s: Sys, i: nat, f: Frame, now: int)
    requires SysInv(cfg, s) && !s.crashed && Ready(cfg, s) && i < |s.paths| && !f.INFO?
    ensures Expressible(cfg.paths[i], f) ==> !FrameReceived(cfg, s, i, f, now).crashed
  {
    match f
    case UA => TransitionKeepsInv(cfg, s, i, ReceivedUa, now);
    case SARM =>
      SendUAKeepsInv(cfg.paths[i], s.paths[i], now);
      PathStepKeepsInv(cfg, s, i, SendUA(s.paths[i], now));
      TransitionKeepsInv(cfg, SetPath(s, i, SendUA(s.paths[i], now)), i, ReceivedSarm, now);
    case _ =>
  }
}
