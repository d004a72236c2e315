/** The timers of a path, told from the events alone, and what its turns do at which time. */
module Timers {
  import opened HnzTypes
  import opened Link
  import opened LinkInvariants
  import opened HnzSystem
  import opened Arbitration
  import opened SystemInvariants
  import opened Theorems
  import opened PathSteps
  import opened PathEvents
  import opened Handshake

  // ---------------------------------------------------------------- when things happened last

  /** The path fell back to the beginning at the last event. */
  predicate FellAt(cfg: SysConf, current: nat, now: int, evs: seq<Event>, i: nat)
    requires evs != []
  {
    var init := evs[..|evs| - 1];
    Falls(InputOf(cfg, current, now, init, i), OutputOf(cfg, current, now, init, i),
          LastSeen(cfg, current, now, evs, i).signal)
  }

  /** The last sign of life, or restart. */
  function HeardAt(cfg: SysConf, current: nat, now: int, evs: seq<Event>, i: nat): int {
    if evs == [] then now
    else
      var x := LastSeen(cfg, current, now, evs, i);
      if x.up || x.heard || x.signal == SarmHeard || x.signal == GaveUp || FellAt(cfg, current, now, evs, i)
      then TimeOf(evs[|evs| - 1]) else HeardAt(cfg, current, now, evs[..|evs| - 1], i)
  }

  function LastFrames(cfg: SysConf, current: nat, now: int, evs: seq<Event>, i: nat): seq<Transmission>
    requires evs != []
  {
    NewFrames(PathOf(cfg, current, now, evs[..|evs| - 1], i), PathOf(cfg, current, now, evs, i))
  }

  /** The last frame on the wire, or TCP connection. */
  function SpokeAt(cfg: SysConf, current: nat, now: int, evs: seq<Event>, i: nat): int {
    if evs == [] then 0
    else if LastSeen(cfg, current, now, evs, i).up || LastFrames(cfg, current, now, evs, i) != []
    then TimeOf(evs[|evs| - 1]) else SpokeAt(cfg, current, now, evs[..|evs| - 1], i)
  }

  predicate SarmAmong(ts: seq<Transmission>) {
    exists t :: t in ts && t.frame.SARM?
  }

  /** The last SARM since the path was at the beginning, 0 if there is none. */
  function SarmAt(cfg: SysConf, current: nat, now: int, evs: seq<Event>, i: nat): int {
    if evs == [] then 0
    else if SarmAmong(LastFrames(cfg, current, now, evs, i)) then TimeOf(evs[|evs| - 1])
    else if FellAt(cfg, current, now, evs, i) then 0
    else SarmAt(cfg, current, now, evs[..|evs| - 1], i)
  }

  /** SARMs in a row: since the path was at the beginning or lost its output. */
  function SarmsInRow(cfg: SysConf, current: nat, now: int, evs: seq<Event>, i: nat): nat {
    if evs == [] then 0
    else
      var init, x := evs[..|evs| - 1], LastSeen(cfg, current, now, evs, i);
      var lost := OutputOf(cfg, current, now, init, i) && !OutputOf(cfg, current, now, evs, i);
      (if FellAt(cfg, current, now, evs, i) || x.signal == GaveUp || lost then 0 else SarmsInRow(cfg, current, now, init, i))
      + (if SarmAmong(LastFrames(cfg, current, now, evs, i)) then 1 else 0)
  }

  predicate Opens(cfg: SysConf, current: nat, now: int, evs: seq<Event>, i: nat) {
    InputOf(cfg, current, now, evs, i) && OutputOf(cfg, current, now, evs, i)
  }

  /** When both sides were opened, until the wait after it is over. */
  function ConnectedAt(cfg: SysConf, current: nat, now: int, evs: seq<Event>, i: nat): int {
    if evs == [] then 0
    else
      var init := evs[..|evs| - 1];
      if Opens(cfg, current, now, evs, i) && !Opens(cfg, current, now, init, i) then TimeOf(evs[|evs| - 1])
      else if LastSeen(cfg, current, now, evs, i).settled then 0
      else ConnectedAt(cfg, current, now, init, i)
  }

  function TcpOf(cfg: SysConf, current: nat, now: int, evs: seq<Event>, i: nat): bool {
    if evs == [] then false
    else
      var init, x := evs[..|evs| - 1], LastSeen(cfg, current, now, evs, i);
      var idle := !InputOf(cfg, current, now, init, i) && !OutputOf(cfg, current, now, init, i);
      x.up || (TcpOf(cfg, current, now, init, i) && !x.down && x.signal != SarmsSpent && !(x.signal == Silence && idle))
  }

  /** When the repetition timer was last set: a first transmission into an empty queue, a repetition, or an NR that
      acknowledged something and left messages in flight. */
  function TimerSetAt(cfg: SysConf, current: nat, now: int, evs: seq<Event>, i: nat): int {
    if evs == [] then 0
    else
      var init := evs[..|evs| - 1];
      var p, q := PathOf(cfg, current, now, init, i), PathOf(cfg, current, now, evs, i);
      if q.sent != [] && (p.sent == [] || Resent(p, q) || |q.h.acknowledged| > |p.h.acknowledged|)
      then TimeOf(evs[|evs| - 1]) else TimerSetAt(cfg, current, now, init, i)
  }

  predicate ConnectionFits(cfg: SysConf, current: nat, now: int, evs: seq<Event>, i: nat) {
    var p := PathOf(cfg, current, now, evs, i);
    && p.proto == StateOf(InputOf(cfg, current, now, evs, i), OutputOf(cfg, current, now, evs, i))
    && p.lastMsg == HeardAt(cfg, current, now, evs, i)
    && p.lastConnected == ConnectedAt(cfg, current, now, evs, i) && p.tcp == TcpOf(cfg, current, now, evs, i)
  }

  predicate SendingFits(cfg: SysConf, current: nat, now: int, evs: seq<Event>, i: nat) {
    var p := PathOf(cfg, current, now, evs, i);
    && p.lastMsgSent == SpokeAt(cfg, current, now, evs, i)
    && p.lastSarm == SarmAt(cfg, current, now, evs, i) && p.sarmSent == SarmsInRow(cfg, current, now, evs, i)
    && (p.sent != [] ==> p.lastSent == TimerSetAt(cfg, current, now, evs, i))
  }

  predicate StepSeen(cfg: SysConf, current: nat, now: int, evs: seq<Event>, i: nat)
    requires evs != []
  {
    Follows(PathOf(cfg, current, now, evs[..|evs| - 1], i), PathOf(cfg, current, now, evs, i),
            LastSeen(cfg, current, now, evs, i), TimeOf(evs[|evs| - 1]))
  }

  lemma ConnectionGoesOn(cfg: SysConf, current: nat, now: int, evs: seq<Event>, i: nat)
    requires evs != [] && ConnectionFits(cfg, current, now, evs[..|evs| - 1], i) && StepSeen(cfg, current, now, evs, i)
    ensures ConnectionFits(cfg, current, now, evs, i)
  {
  }

  lemma SendingGoesOn(cfg: SysConf, current: nat, now: int, evs: seq<Event>, i: nat)
    requires evs != [] && ConnectionFits(cfg, current, now, evs[..|evs| - 1], i)
    requires SendingFits(cfg, current, now, evs[..|evs| - 1], i)
    requires ConnectionFits(cfg, current, now, evs, i) && StepSeen(cfg, current, now, evs, i)
    ensures SendingFits(cfg, current, now, evs, i)
  {
  }

  lemma InitialTimers(cfg: SysConf, current: nat, now: int, i: nat)
    requires i < |cfg.paths|
    ensures ConnectionFits(cfg, current, now, [], i) && SendingFits(cfg, current, now, [], i)
  {
  }

  /** Main result. In every run the fields of a path are these instants. */
  lemma {:induction false} TimersAre(cfg: SysConf, current: nat, now: int, evs: seq<Event>, i: nat)
    requires i < |cfg.paths|
    ensures ConnectionFits(cfg, current, now, evs, i) && SendingFits(cfg, current, now, evs, i)
    decreases |evs|
  {
    if evs == [] {
      InitialTimers(cfg, current, now, i);
    } else {
      TimersAre(cfg, current, now, evs[..|evs| - 1], i);
      RunFollows(cfg, current, now, evs, i);
      ConnectionGoesOn(cfg, current, now, evs, i);
      SendingGoesOn(cfg, current, now, evs, i);
    }
  }


  // ---------------------------------------------------------------- repetitions

  /** A message is in flight, the TCP connection is up, and more than the timeout passed since the timer was set. */
  predicate TimedOut(cfg: SysConf, current: nat, now: int, evs: seq<Event>, i: nat, reading: nat) {
    && PathOf(cfg, current, now, evs, i).sent != [] && TcpOf(cfg, current, now, evs, i)
    && TimerSetAt(cfg, current, now, evs, i) + cfg.repeatTimeout < reading
  }

  /** The oldest message went out again, and only it is still in flight. */
  predicate Repeats(p: PathState, q: PathState)
    requires p.sent != []
  {
    && q.h.wire == p.h.wire + [Tx(INFO(p.sent[0].ns, p.nr, true, p.sent[0].payload), p.proto, p.h.va, |p.h.rcv|)]
    && q.sent == [p.sent[0]] && q.waiting == Payloads(p.sent[1..]) + p.waiting && q.repeat == p.repeat + 1
    && q.proto == p.proto
  }

  /** Everything not acknowledged is dropped and the output is closed. */
  predicate GivesUp(p: PathState, q: PathState) {
    && q.h.wire == p.h.wire && q.sent == [] && q.waiting == [] && !Sending(q) && InputOpen(q) == InputOpen(p)
    && q.h.discarded == p.h.discarded + Payloads(p.sent) + p.waiting
  }

  /** Main result. In every run a turn of the timer repeats the oldest message or gives up if and only if its timeout
      has passed; it gives up if and only if the repetitions are used up; an early turn changes nothing. */
  lemma TurnRepeatsIff(cfg: SysConf, current: nat, now: int, evs: seq<Event>, i: nat, reading: nat, at: int)
    requires i < |cfg.paths| && !Reached(cfg, current, now, evs).crashed
    ensures var s := Reached(cfg, current, now, evs);
            var r := Step(cfg, s, Repeat(i, reading, at));
            && i < |s.paths| && i < |r.paths|
            && if !TimedOut(cfg, current, now, evs, i, reading) then r == s
               else if s.paths[i].repeat < cfg.paths[i].repeatMax then Repeats(s.paths[i], r.paths[i])
               else GivesUp(s.paths[i], r.paths[i])
  {
    var s := Reached(cfg, current, now, evs);
    RunKeepsInv(cfg, current, now, evs);
    InvIsOrderly(cfg, s, i);
    TimersAre(cfg, current, now, evs, i);
    TurnOnFields(cfg, s, i, reading, at);
  }

  lemma TurnOnFields(cfg: SysConf, s: Sys, i: nat, reading: nat, at: int)
    requires Ready(cfg, s) && !s.crashed && i < |s.paths| && Orderly(s.paths[i])
    ensures var r := Step(cfg, s, Repeat(i, reading, at));
            && i < |r.paths|
            && if !Overdue(cfg, s.paths[i], reading) then r == s
               else if s.paths[i].repeat < cfg.paths[i].repeatMax then Repeats(s.paths[i], r.paths[i])
               else GivesUp(s.paths[i], r.paths[i])
  {
    var p := s.paths[i];
    if Overdue(cfg, p, reading) {
      if p.repeat < cfg.paths[i].repeatMax {
        RequeueRepeats(p, at);
      } else {
        OwnPartIs(s, i, PathSteps.GaveUp, at);
        OwnPartGivesUp(p, at);
      }
    }
  }

  lemma RequeueRepeats(p: PathState, at: int)
    requires p.sent != []
    ensures Repeats(p, Requeue(SendBackInfo(p, at)))
  {
  }

  lemma OwnPartGivesUp(p: PathState, at: int)
    requires Sending(p)
    ensures GivesUp(p, OwnPart(p, PathSteps.GaveUp, at))
  {
    var row := Row(p.proto, MaxSend).value;
    var p0 := p.(proto := row.next);
    if p.proto == OutputConnected {
      ActsOfThree(ResetSarm, Discard, ResolveConnection, p0, at);
    } else {
      ActsOfFour(SetConnectionPending, ResetSarm, Discard, ResetInput, p0, at);
    }
  }

  // ---------------------------------------------------------------- SARMs, BULLEs, silence

  function Frames(ts: seq<Transmission>): (fs: seq<Frame>)
    ensures |fs| == |ts| && forall k | 0 <= k < |ts| :: fs[k] == ts[k].frame
  {
    seq(|ts|, k requires 0 <= k < |ts| => ts[k].frame)
  }

  function Bulle(c: PathConf): Payload {
    [c.bulleSend.0, c.bulleSend.1]
  }

  /** What the turn of the path thread at time `at` puts on the wire, told from the events. Without output: a SARM, if
      the peer was heard lately and the last one is long enough ago. With output: a BULLE, if nothing was sent for
      long enough and the window has room. */
  function TurnSends(cfg: SysConf, current: nat, now: int, evs: seq<Event>, i: nat, at: int): seq<Frame>
    requires i < |cfg.paths|
  {
    var c, p := cfg.paths[i], PathOf(cfg, current, now, evs, i);
    if !OutputOf(cfg, current, now, evs, i) then
      if at - HeardAt(cfg, current, now, evs, i) <= c.inaccTimeout * 1000
         && at - SarmAt(cfg, current, now, evs, i) >= c.repeatTimeout
      then [SARM] else []
    else if at - SpokeAt(cfg, current, now, evs, i) >= c.bulleTime * 1000 && |p.sent| < c.ratio
      then [INFO(p.ns, p.nr, false, Bulle(c))] else []
  }

  /** Main result. In every run a turn of the path thread sends exactly that. */
  lemma TurnOfThread(cfg: SysConf, current: nat, now: int, evs: seq<Event>, i: nat, at: int)
    requires i < |cfg.paths| && !Reached(cfg, current, now, evs).crashed
    ensures var s := Reached(cfg, current, now, evs);
            var r := Step(cfg, s, Manage(i, at));
            && i < |s.paths| && i < |r.paths| && s.paths[i].h.wire <= r.paths[i].h.wire
            && Frames(NewFrames(s.paths[i], r.paths[i])) == TurnSends(cfg, current, now, evs, i, at)
  {
    var s := Reached(cfg, current, now, evs);
    assert Ready(cfg, s) && Orderly(s.paths[i]) by {
      RunKeepsInv(cfg, current, now, evs);
      InvIsOrderly(cfg, s, i);
    }
    TimersAre(cfg, current, now, evs, i);
    if Sending(s.paths[i]) {
      BulleTurn(cfg, s, i, at);
    } else {
      SarmTurnSends(cfg, s, i, at);
    }
  }

  /** In every run it closes an open input if and only if the peer was silent for too long or, without output, the
      SARMs in a row are used up when the next one is due. */
  lemma TurnClosesInputIff(cfg: SysConf, current: nat, now: int, evs: seq<Event>, i: nat, at: int)
    requires i < |cfg.paths| && !Reached(cfg, current, now, evs).crashed && InputOf(cfg, current, now, evs, i)
    ensures InputOf(cfg, current, now, evs + [Manage(i, at)], i)
            <==> && at - HeardAt(cfg, current, now, evs, i) <= cfg.paths[i].inaccTimeout * 1000
                 && (TurnSends(cfg, current, now, evs, i, at) == [SARM] ==>
                       SarmsInRow(cfg, current, now, evs, i) != cfg.paths[i].maxSarm)
  {
    LastSeenIs(cfg, current, now, evs, Manage(i, at), i);
    TimersAre(cfg, current, now, evs, i);
    assert (evs + [Manage(i, at)])[..|evs|] == evs;
  }

  lemma SarmTurnSends(cfg: SysConf, s: Sys, i: nat, at: int)
    requires Ready(cfg, s) && !s.crashed && i < |s.paths| && Orderly(s.paths[i]) && !Sending(s.paths[i])
    ensures var c, p, q := cfg.paths[i], s.paths[i], Step(cfg, s, Manage(i, at)).paths[i];
            p.h.wire <= q.h.wire
            && Frames(NewFrames(p, q)) == if !Silent(c, p, at) && at - p.lastSarm >= c.repeatTimeout then [SARM] else []
  {
    var c, p, q := cfg.paths[i], s.paths[i], Step(cfg, s, Manage(i, at)).paths[i];
    TransitionMoves(s, i, PathSteps.Silence, at);
    TransitionMoves(s, i, SarmsSpent, at);
    if !Silent(c, p, at) && at - p.lastSarm >= c.repeatTimeout {
      assert NewFrames(p, q) == [q.h.wire[|p.h.wire|]] && q.h.wire[|p.h.wire|].frame == SARM;
    } else {
      assert NewFrames(p, q) == [];
    }
  }

  lemma BulleTurn(cfg: SysConf, s: Sys, i: nat, at: int)
    requires Ready(cfg, s) && !s.crashed && i < |s.paths| && Sending(s.paths[i])
    ensures var c, p, q := cfg.paths[i], s.paths[i], Step(cfg, s, Manage(i, at)).paths[i];
            p.h.wire <= q.h.wire
            && Frames(NewFrames(p, q))
               == if at - p.lastMsgSent >= c.bulleTime * 1000 && |p.sent| < c.ratio then [INFO(p.ns, p.nr, false, Bulle(c))]
                  else []
  {
    var c, p, q := cfg.paths[i], s.paths[i], Step(cfg, s, Manage(i, at)).paths[i];
    TransitionMoves(SetPath(s, i, SendDueBulle(c, p, at)), i, PathSteps.Silence, at);
    if at - p.lastMsgSent >= c.bulleTime * 1000 && |p.sent| < c.ratio {
      assert NewFrames(p, q) == [q.h.wire[|p.h.wire|]];
    } else {
      assert NewFrames(p, q) == [];
    }
  }
}
