/** A peer that stays silent: the oldest message is repeated a fixed number of times, then the path
    leaves the state and both queues are empty. */
module Silence {
  import opened HnzTypes
  import opened Link
  import opened LinkInvariants
  import opened HnzSystem
  import opened Arbitration
  import opened SystemInvariants

  /** Turns of the repeat timer on path i at the given times, nothing else happening. */
  function Turns(cfg: SysConf, s: Sys, i: nat, ts: seq<nat>): (r: Sys)
    requires WellSized(cfg, s) && i < |s.paths|
    ensures WellSized(cfg, r) && |r.paths| == |s.paths|
  {
    if ts == [] then s
    else CheckRepeat(cfg, Turns(cfg, s, i, ts[..|ts| - 1]), i, ts[|ts| - 1], ts[|ts| - 1])
  }

  /** When the timer was last set before turn k, each turn having repeated the message. */
  function TimerSet(lastSent: int, ts: seq<nat>, k: nat): int
    requires k <= |ts|
  {
    if k == 0 then lastSent else ts[k - 1]
  }

  /** Each turn comes after the timer ran out again. */
  predicate Overdue(cfg: SysConf, lastSent: int, ts: seq<nat>) {
    forall k | 0 <= k < |ts| :: TimerSet(lastSent, ts, k) + cfg.repeatTimeout < ts[k]
  }

  function RepeatsLeft(c: PathConf, p: PathState): nat {
    if c.repeatMax > p.repeat then c.repeatMax - p.repeat else 0
  }

  /** The repeats of a message on the wire: poll bit set, its own NS, current NR. */
  function Repeated(p: PathState, n: nat): seq<Transmission>
    requires p.sent != []
  {
    seq(n, _ => Tx(INFO(p.sent[0].ns, p.nr, true, p.sent[0].payload), p.proto, p.h.va, |p.h.rcv|))
  }

  /** Path p after n repeats that brought no answer. */
  predicate After(p: PathState, q: PathState, n: nat)
    requires p.sent != []
  {
    && q.proto == p.proto && q.tcp == p.tcp && q.nr == p.nr && q.h.va == p.h.va && q.h.rcv == p.h.rcv
    && q.repeat == p.repeat + n
    && q.h.wire == p.h.wire + Repeated(p, n) && q.h.discarded == p.h.discarded
    && q.sent != [] && q.sent[0] == p.sent[0] && (n > 0 ==> |q.sent| == 1)
    && Payloads(q.sent) + q.waiting == Payloads(p.sent) + p.waiting
  }

  lemma OverdueBefore(cfg: SysConf, lastSent: int, ts: seq<nat>, n: nat)
    requires n <= |ts| && Overdue(cfg, lastSent, ts)
    ensures Overdue(cfg, lastSent, ts[..n])
  {
    forall k | 0 <= k < n
      ensures TimerSet(lastSent, ts[..n], k) + cfg.repeatTimeout < ts[..n][k]
    {
      assert ts[..n][k] == ts[k] && TimerSet(lastSent, ts[..n], k) == TimerSet(lastSent, ts, k);
    }
  }

  lemma {:induction false} SilentTurns(cfg: SysConf, s: Sys, i: nat, ts: seq<nat>)
    requires SysInv(cfg, s) && !s.crashed && i < |s.paths|
    requires s.paths[i].sent != [] && s.paths[i].tcp && Overdue(cfg, s.paths[i].lastSent, ts)
    requires |ts| <= RepeatsLeft(cfg.paths[i], s.paths[i])
    ensures SilentFor(cfg, s.paths[i], Turns(cfg, s, i, ts), i, ts)
    decreases |ts|
  {
    if ts == [] {
      assert Repeated(s.paths[i], 0) == [];
    } else {
      var n := |ts| - 1;
      OverdueBefore(cfg, s.paths[i].lastSent, ts, n);
      SilentTurns(cfg, s, i, ts[..n]);
      SilentTurn(cfg, s.paths[i], Turns(cfg, s, i, ts[..n]), i, ts);
    }
  }

  predicate SilentFor(cfg: SysConf, p: PathState, r: Sys, i: nat, ts: seq<nat>)
    requires p.sent != []
  {
    && SysInv(cfg, r) && !r.crashed && i < |r.paths|
    && After(p, r.paths[i], |ts|)
    && r.paths[i].lastSent == TimerSet(p.lastSent, ts, |ts|)
  }

  lemma SilentTurn(cfg: SysConf, p: PathState, s: Sys, i: nat, ts: seq<nat>)
    requires p.sent != [] && p.tcp && ts != [] && Overdue(cfg, p.lastSent, ts)
    requires SilentFor(cfg, p, s, i, ts[..|ts| - 1]) && |ts| <= RepeatsLeft(cfg.paths[i], p)
    ensures SilentFor(cfg, p, CheckRepeat(cfg, s, i, ts[|ts| - 1], ts[|ts| - 1]), i, ts)
  {
    var n := |ts| - 1;
    var t := ts[n];
    var q := s.paths[i];
    assert q.lastSent == TimerSet(p.lastSent, ts[..n], n) == TimerSet(p.lastSent, ts, n);
    OneMoreRepeat(p, q, n, t);
    RepeatStepKeepsInv(cfg, s, i, t);
    RepeatTurn(cfg, s, i, t);
  }

  lemma RepeatTurn(cfg: SysConf, s: Sys, i: nat, t: nat)
    requires WellSized(cfg, s) && i < |s.paths| && s.paths[i].sent != [] && s.paths[i].tcp
    requires s.paths[i].lastSent + cfg.repeatTimeout < t && s.paths[i].repeat < cfg.paths[i].repeatMax
    ensures CheckRepeat(cfg, s, i, t, t) == SetPath(s, i, Requeue(SendBackInfo(s.paths[i], t)))
  {
  }

  lemma OneMoreRepeat(p: PathState, q: PathState, n: nat, now: int)
    requires p.sent != [] && After(p, q, n)
    ensures After(p, Requeue(SendBackInfo(q, now)), n + 1)
  {
    assert Repeated(p, n + 1) == Repeated(p, n) + [Repeated(p, n + 1)[n]];
    PayloadsSlice(q.sent, 1);
  }

  /** Main result. While the peer is silent the oldest message is repeated exactly as often as the
      configuration still allows; the next timeout sends nothing, empties both queues and leaves the
      state in which messages may be sent. */
  lemma SilentPeer(cfg: SysConf, s: Sys, i: nat, ts: seq<nat>)
    requires SysInv(cfg, s) && !s.crashed && i < |s.paths|
    requires s.paths[i].sent != [] && s.paths[i].tcp && Overdue(cfg, s.paths[i].lastSent, ts)
    requires |ts| == RepeatsLeft(cfg.paths[i], s.paths[i]) + 1
    ensures GaveUp(s.paths[i], Turns(cfg, s, i, ts).paths[i], |ts| - 1)
  {
    var n := |ts| - 1;
    OverdueBefore(cfg, s.paths[i].lastSent, ts, n);
    SilentTurns(cfg, s, i, ts[..n]);
    LastTurn(cfg, s.paths[i], Turns(cfg, s, i, ts[..n]), i, ts);
  }

  lemma LastTurn(cfg: SysConf, p: PathState, s: Sys, i: nat, ts: seq<nat>)
    requires p.sent != [] && p.tcp && ts != [] && Overdue(cfg, p.lastSent, ts) && Sending(p)
    requires SilentFor(cfg, p, s, i, ts[..|ts| - 1]) && |ts| == RepeatsLeft(cfg.paths[i], p) + 1
    ensures GaveUp(p, CheckRepeat(cfg, s, i, ts[|ts| - 1], ts[|ts| - 1]).paths[i], |ts| - 1)
  {
    var t := ts[|ts| - 1];
    assert s.paths[i].lastSent == TimerSet(p.lastSent, ts[..|ts| - 1], |ts| - 1) == TimerSet(p.lastSent, ts, |ts| - 1);
    var q := GivesUp(cfg, s, i, t);
    SumOfDiscarded(p, s.paths[i]);
  }

  /** Path q gave up on path p after n repeats. */
  predicate GaveUp(p: PathState, q: PathState, n: nat)
    requires p.sent != []
  {
    && q.h.wire == p.h.wire + Repeated(p, n)
    && q.sent == [] && q.waiting == []
    && q.proto == (if p.proto == Connected then InputConnected else Connection)
    && q.h.discarded == p.h.discarded + Payloads(p.sent) + p.waiting
  }

  lemma SumOfDiscarded(p: PathState, q: PathState)
    requires q.h.discarded == p.h.discarded && Payloads(q.sent) + q.waiting == Payloads(p.sent) + p.waiting
    ensures q.h.discarded + Payloads(q.sent) + q.waiting == p.h.discarded + Payloads(p.sent) + p.waiting
  {
    var d := p.h.discarded;
    assert d + Payloads(q.sent) + q.waiting == d + (Payloads(q.sent) + q.waiting);
    assert d + Payloads(p.sent) + p.waiting == d + (Payloads(p.sent) + p.waiting);
  }

  lemma GivesUp(cfg: SysConf, s: Sys, i: nat, t: nat) returns (q: PathState)
    requires SysInv(cfg, s) && !s.crashed && i < |s.paths| && Sending(s.paths[i])
    requires s.paths[i].sent != [] && s.paths[i].tcp && s.paths[i].lastSent + cfg.repeatTimeout < t
    requires s.paths[i].repeat >= cfg.paths[i].repeatMax
    ensures q == CheckRepeat(cfg, s, i, t, t).paths[i]
    ensures var p := s.paths[i];
            && q.h.wire == p.h.wire && q.sent == [] && q.waiting == []
            && q.proto == (if p.proto == Connected then InputConnected else Connection)
            && q.h.discarded == p.h.discarded + Payloads(p.sent) + p.waiting
  {
    var p := s.paths[i];
    q := CheckRepeat(cfg, s, i, t, t).paths[i];
    TransitionIs(s, i, MaxSend, t);
    GiveUpPath(p, t);
  }

  lemma GiveUpPath(p: PathState, t: int)
    requires Sending(p)
    ensures Row(p.proto, MaxSend).Some?
    ensures var row := Row(p.proto, MaxSend).value;
            var q := LinkActs(row.actions, p.(proto := row.next), t);
            && q.h.wire == p.h.wire && q.sent == [] && q.waiting == []
            && q.proto == (if p.proto == Connected then InputConnected else Connection)
            && q.h.discarded == p.h.discarded + Payloads(p.sent) + p.waiting
  {
    var row := Row(p.proto, MaxSend).value;
    var p0 := p.(proto := row.next);
    LinkActsOnQueues(row.actions, p0, t);
    LinkActsKeepState(row.actions, p0, t, p0.conn);
    GiveUpActs(p0, t);
  }

  /** Both rows for MAX_SEND discard once and put nothing on the wire. */
  lemma GiveUpActs(p: PathState, t: int)
    ensures var q := LinkActs([ResetSarm, Discard, ResolveConnection], p, t);
            q.h.wire == p.h.wire && q.h.discarded == p.h.discarded + Payloads(p.sent) + p.waiting
    ensures var q := LinkActs([SetConnectionPending, ResetSarm, Discard, ResetInput], p, t);
            q.h.wire == p.h.wire && q.h.discarded == p.h.discarded + Payloads(p.sent) + p.waiting
  {
    var a := [ResetSarm, Discard, ResolveConnection];
    assert a[1..] == [Discard, ResolveConnection] && a[1..][1..] == [ResolveConnection] && a[1..][1..][1..] == [];
    var b := [SetConnectionPending, ResetSarm, Discard, ResetInput];
    assert b[1..] == [ResetSarm, Discard, ResetInput] && b[1..][1..] == [Discard, ResetInput];
    assert b[1..][1..][1..] == [ResetInput] && b[1..][1..][1..][1..] == [];
  }
}
