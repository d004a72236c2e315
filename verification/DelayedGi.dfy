/** The delayed General Interrogation: in every configuration that allows a GI, a run at whose end the code
    uses the active path although there is none. */
module DelayedGi {
  import opened HnzTypes
  import opened Link
  import opened HnzSystem
  import opened SystemInvariants
  import opened Arbitration
  import opened Theorems
  import opened Scenarios
  import opened Crashes
  import GiLog
  import GiResult
  import Messages

  function RestartTime(cfg: SysConf, i: nat): nat
    requires i < |cfg.paths|
  {
    2 * OpeningTime(cfg, i)
  }

  /** Connected, GI started, a second one delayed, connection restarted by the peer; what follows is the
      answer to the first GI, on the path that is only INPUT_CONNECTED. */
  function Restarting(cfg: SysConf, i: nat): seq<Event>
    requires i < |cfg.paths|
  {
    var t := OpeningTime(cfg, i);
    OpeningEvents(cfg, i) + [GiRequest(t)] + [GiRequest(t)] + [Receive(i, SARM, RestartTime(cfg, i))]
  }

  lemma GiIsDelayed(cfg: SysConf, s: Sys, i: nat, t: int, at: int)
    requires Ready(cfg, s) && Lone(s, i, t) && s.fledge.giStatus == GiStarted
    ensures var r := Step(cfg, s, GiRequest(at)); Lone(r, i, t) && r.fledge.giInQueue
  {
  }

  lemma Restarts(cfg: SysConf, s: Sys, i: nat, t: int, at: int)
    requires SysInv(cfg, s) && Lone(s, i, t) && s.fledge.giInQueue && at - t > cfg.paths[i].repeatTimeout
    ensures var r := Step(cfg, s, Receive(i, SARM, at)); Listening(r, i) && r.paths[i].nrr == 0 && Stranded(r)
  {
    SarmStep(cfg, s, i, at);
    var s1 := Answered(cfg, s, i, at);
    Restarted(cfg, s1, i, t, at);
  }

  lemma Restarted(cfg: SysConf, s: Sys, i: nat, t: int, at: int)
    requires SysInv(cfg, s) && Lone(s, i, t) && s.fledge.giInQueue
    ensures var r := ProtocolTransition(s, i, ReceivedSarm, at); Listening(r, i) && r.paths[i].nrr == 0 && Stranded(r)
  {
    TransitionKeepsInv(cfg, s, i, ReceivedSarm, at);
    RestartLoses(s, i, t, at);
  }

  lemma RestartLoses(s: Sys, i: nat, t: int, at: int)
    requires Lone(s, i, t) && s.fledge.giInQueue
    ensures var r := ProtocolTransition(s, i, ReceivedSarm, at); (!r.crashed ==> Listening(r, i) && r.paths[i].nrr == 0) && Stranded(r)
  {
    TransitsAlone(s, i, ReceivedSarm, at);
    RestartActs(s.paths[i].(proto := InputConnected), at);
  }

  lemma RestartActs(p: PathState, now: int)
    ensures var q := LinkActs([SetConnectionPending, ResetSarm, Discard, ResetInput], p, now);
            q.proto == p.proto && q.nrr == p.nrr
  {
    ActsOfFour(SetConnectionPending, ResetSarm, Discard, ResetInput, p, now);
  }

  /** The delayed GI outlives the loss of the only path. */
  lemma Strands(cfg: SysConf, i: nat)
    requires i < |cfg.paths| && cfg.paths[i].ratio >= 1
    ensures var s := Reached(cfg, 0, 0, Restarting(cfg, i)); Listening(s, i) && s.paths[i].nrr == 0 && Stranded(s)
  {
    var t := OpeningTime(cfg, i);
    var evs := OpeningEvents(cfg, i);
    var s0 := Opened(cfg, i);
    ReachedIsReady(cfg, evs);
    GiGoesOut(cfg, s0, i, t, t);
    RunThen(cfg, evs, GiRequest(t));
    ReachedIsReady(cfg, evs + [GiRequest(t)]);
    GiIsDelayed(cfg, Reached(cfg, 0, 0, evs + [GiRequest(t)]), i, t, t);
    RunThen(cfg, evs + [GiRequest(t)], GiRequest(t));
    var before := evs + [GiRequest(t)] + [GiRequest(t)];
    RunKeepsInv(cfg, 0, 0, before);
    Restarts(cfg, Reached(cfg, 0, 0, before), i, t, RestartTime(cfg, i));
    RunThen(cfg, before, Receive(i, SARM, RestartTime(cfg, i)));
  }

  /** The crash is reachable on every path with a window, whenever a TSCG brings the last expected address:
      the answer to the first GI makes the code start the delayed one on a null active path. */
  lemma DelayedGiCrashes(cfg: SysConf, i: nat, block: Byte)
    requires i < |cfg.paths| && cfg.paths[i].ratio >= 1
    requires LastIsIn(cfg, GiResult.TscgReceived(cfg.tsAddresses, block))
    ensures var answer := Receive(i, INFO(0, 0, false, Tscg(block)), RestartTime(cfg, i));
            Reached(cfg, 0, 0, Restarting(cfg, i) + [answer]).crashed
  {
    var answer := Receive(i, INFO(0, 0, false, Tscg(block)), RestartTime(cfg, i));
    var evs := Restarting(cfg, i);
    Strands(cfg, i);
    RunThen(cfg, evs, answer);
    CrashIff(cfg, 0, 0, evs, answer);
    TscgIsWhole(cfg.paths[i].bulleReceive, block);
    assert BringsLast(cfg, Tscg(block)) && Tscg(block) in [Tscg(block)];
  }
}
