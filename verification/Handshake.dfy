/** The connection of a path with its peer, told from the events alone: what it has heard, from when on its input
    and its output are open. */
module Handshake {
  import opened HnzTypes
  import opened Link
  import opened LinkInvariants
  import opened HnzSystem
  import opened Arbitration
  import opened SystemInvariants
  import opened Theorems
  import opened PathSteps
  import opened PathEvents
  import opened Scenarios

  /** Path i after a run. */
  function PathOf(cfg: SysConf, current: nat, now: int, evs: seq<Event>, i: nat): PathState {
    var s := Reached(cfg, current, now, evs);
    if i < |s.paths| then s.paths[i] else FRESH_PATH
  }

  /** What path i got from the last event of a run. */
  function LastSeen(cfg: SysConf, current: nat, now: int, evs: seq<Event>, i: nat): Seen
    requires evs != []
  {
    var s := Reached(cfg, current, now, evs[..|evs| - 1]);
    if s.crashed || !WellSized(cfg, s) || i >= |s.paths| then NOTHING else SeenBy(cfg, s, evs[|evs| - 1], i)
  }

  lemma LastSeenIs(cfg: SysConf, current: nat, now: int, evs: seq<Event>, e: Event, i: nat)
    requires i < |cfg.paths| && !Reached(cfg, current, now, evs).crashed
    ensures var s := Reached(cfg, current, now, evs);
            WellSized(cfg, s) && i < |s.paths| && LastSeen(cfg, current, now, evs + [e], i) == SeenBy(cfg, s, e, i)
  {
    RunKeepsInv(cfg, current, now, evs);
    assert (evs + [e])[..|evs|] == evs;
  }

  /** The last event of a run, seen from path i. */
  lemma RunFollows(cfg: SysConf, current: nat, now: int, evs: seq<Event>, i: nat)
    requires evs != [] && i < |cfg.paths|
    ensures Follows(PathOf(cfg, current, now, evs[..|evs| - 1], i), PathOf(cfg, current, now, evs, i),
                    LastSeen(cfg, current, now, evs, i), TimeOf(evs[|evs| - 1]))
  {
    var s := Reached(cfg, current, now, evs[..|evs| - 1]);
    RunKeepsInv(cfg, current, now, evs[..|evs| - 1]);
    if s.crashed {
      SameStateFollows(s.paths[i], s.paths[i], TimeOf(evs[|evs| - 1]));
    } else {
      StepFollows(cfg, s, evs[|evs| - 1], i);
    }
  }

  /** Is the input of path i open, is its output? Before anything was heard neither is. */
  function InputOf(cfg: SysConf, current: nat, now: int, evs: seq<Event>, i: nat): bool {
    if evs == [] then false
    else InputAfter(InputOf(cfg, current, now, evs[..|evs| - 1], i), LastSeen(cfg, current, now, evs, i).signal)
  }

  function OutputOf(cfg: SysConf, current: nat, now: int, evs: seq<Event>, i: nat): bool {
    if evs == [] then false
    else
      var init := evs[..|evs| - 1];
      OutputAfter(InputOf(cfg, current, now, init, i), OutputOf(cfg, current, now, init, i),
                  LastSeen(cfg, current, now, evs, i).signal)
  }

  function StateOf(input: bool, output: bool): ProtocolState {
    if input && output then Connected else if input then InputConnected else if output then OutputConnected else Connection
  }

  /** Main result. In every run the protocol state of a path is what the signals heard so far say: SARMs and UAs
      received, silence, repetitions or SARMs used up, TCP connection lost. */
  lemma {:induction false} ProtocolIs(cfg: SysConf, current: nat, now: int, evs: seq<Event>, i: nat)
    requires i < |cfg.paths|
    ensures i < |Reached(cfg, current, now, evs).paths|
    ensures Reached(cfg, current, now, evs).paths[i].proto
            == StateOf(InputOf(cfg, current, now, evs, i), OutputOf(cfg, current, now, evs, i))
    decreases |evs|
  {
    RunKeepsInv(cfg, current, now, evs);
    if evs != [] {
      ProtocolIs(cfg, current, now, evs[..|evs| - 1], i);
      RunFollows(cfg, current, now, evs, i);
    }
  }

  // ---------------------------------------------------------------- a handshake the other way round

  function UaFirst(cfg: SysConf, i: nat): seq<Event>
    requires i < |cfg.paths|
  {
    var t := OpeningTime(cfg, i);
    [Connect(i, t), Receive(i, UA, t), Receive(i, SARM, t)]
  }

  lemma UaOpens(cfg: SysConf, s: Sys, i: nat, t: int) returns (r: Sys)
    requires i < |cfg.paths| && Opening(cfg, s, i, Connection) && s.paths[i].lastConnected == 0
    ensures r == Step(cfg, s, Receive(i, UA, t)) && SysInv(cfg, r) && !r.crashed && i < |r.paths| && Alone(r, i)
    ensures r.paths[i].proto == OutputConnected && r.paths[i].lastConnected == 0 && r.active == None
  {
    UaStep(cfg, s, i, t);
    r := Transits(cfg, s, i, ReceivedUa, t);
    ActsOfTwo(SetConnectionPending, ResetOutput, s.paths[i].(proto := OutputConnected), t);
  }

  lemma SarmCompletes(cfg: SysConf, s: Sys, i: nat, t: int) returns (r: Sys)
    requires SysInv(cfg, s) && !s.crashed && i < |s.paths| && Alone(s, i) && s.active == None
    requires s.paths[i].proto == OutputConnected && t - s.paths[i].lastConnected > cfg.paths[i].repeatTimeout
    ensures r == Step(cfg, s, Receive(i, SARM, t)) && i < |r.paths|
    ensures r.paths[i].proto == Connected && r.paths[i].conn == Active && r.active == Some(i)
    ensures r.fledge.connStatus == Started
  {
    SarmStep(cfg, s, i, t);
    var s1 := Answered(cfg, s, i, t);
    r := Transits(cfg, s1, i, ReceivedSarm, t);
    LinkActsKeepState([ResetInput, ResolveConnected], s1.paths[i].(proto := Connected), t, Active);
    ActiveIsStarted(cfg, r);
  }

  lemma ActiveIsStarted(cfg: SysConf, s: Sys)
    requires SysInv(cfg, s) && s.active.Some?
    ensures s.paths[s.active.value].conn == Active && s.fledge.connStatus == Started
  {
  }

  /** In every configuration, on every path: a UA that comes before the SARM connects as well. */
  lemma UaFirstConnects(cfg: SysConf, i: nat)
    requires i < |cfg.paths|
    ensures var r := Reached(cfg, 0, 0, UaFirst(cfg, i));
            && i < |r.paths| && r.paths[i].proto == Connected && r.paths[i].conn == Active
            && r.active == Some(i) && r.fledge.connStatus == Started
  {
    var t := OpeningTime(cfg, i);
    var s1 := Connects(cfg, i);
    var s2 := UaOpens(cfg, s1, i, t);
    var s3 := SarmCompletes(cfg, s2, i, t);
    RunThen(cfg, [], Connect(i, t));
    RunThen(cfg, [Connect(i, t)], Receive(i, UA, t));
    RunThen(cfg, [Connect(i, t), Receive(i, UA, t)], Receive(i, SARM, t));
    assert [] + [Connect(i, t)] == [Connect(i, t)];
    assert [Connect(i, t)] + [Receive(i, UA, t)] == [Connect(i, t), Receive(i, UA, t)];
    assert [Connect(i, t), Receive(i, UA, t)] + [Receive(i, SARM, t)] == UaFirst(cfg, i);
  }
}
