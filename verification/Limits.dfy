/** Where the properties stop: for each bound on a configuration value or a situation, the exact
    condition, with the runs that attain it. */
module Limits {
  import opened HnzTypes
  import opened Modulo8
  import opened Link
  import opened LinkInvariants
  import opened HnzSystem
  import opened SystemInvariants
  import opened Theorems
  import opened Scenarios
  import opened Silence

  // ---------------------------------------------------------------- timeouts

  /** A timeout never changes the order of what is still to be acknowledged. */
  lemma TimeoutKeepsOrder(s: PathState, now: int)
    requires s.sent != []
    ensures var r := Requeue(SendBackInfo(s, now)); Payloads(r.sent) + r.waiting == Payloads(s.sent) + s.waiting
  {
    RequeueKeepsOrder(s.sent, s.waiting);
  }

  /** The window equation survives a timeout if and only if one message was in flight: m_ns is not moved
      back. */
  lemma TimeoutKeepsWindowIff(c: PathConf, s: PathState, now: int)
    requires s.sent != [] && ExactWindow(c, s)
    ensures var r := Requeue(SendBackInfo(s, now));
            && (ExactWindow(c, r) <==> |s.sent| == 1)
            && (r.h.va + |r.sent| == |r.h.txs| <==> |s.sent| == 1)
  {
    var r := Requeue(SendBackInfo(s, now));
    PayloadsSlice(s.sent, 1);
    if |s.sent| == 1 {
      assert r.sent == s.sent && r.waiting == s.waiting;
    }
  }

  // ---------------------------------------------------------------- widest window

  /** Path i is active with n messages in flight, the window being `width` wide after `rep` repeats. */
  predicate InFlight(s: Sys, i: nat, n: nat, width: nat, rep: nat, at: nat) {
    && !s.crashed && i < |s.paths| && s.active == Some(i)
    && var p := s.paths[i];
       && p.proto == Connected && p.tcp && p.lastSent <= at && !p.h.lost
       && |p.sent| == n && |p.h.txs| == width && p.h.va == 0 && p.repeat == rep
  }

  lemma OneMoreCommand(cfg: SysConf, s: Sys, i: nat, n: nat, width: nat, rep: nat, at: nat)
    requires Ready(cfg, s) && InFlight(s, i, n, width, rep, at) && n < cfg.paths[i].ratio
    ensures InFlight(Step(cfg, s, TcCommand(0, 0, at)), i, n + 1, width + 1, rep, at)
  {
    assert Step(cfg, s, TcCommand(0, 0, at)) == SendTcCommand(cfg, s, 0, 0, at);
  }

  lemma OneMoreTimeout(cfg: SysConf, s: Sys, i: nat, n: nat, width: nat, rep: nat, at: nat)
    requires Ready(cfg, s) && InFlight(s, i, n, width, rep, at) && n >= 1 && rep < cfg.paths[i].repeatMax
    ensures var late := at + cfg.repeatTimeout + 1;
            InFlight(Step(cfg, s, Repeat(i, late, late)), i, 1, width, rep + 1, late)
  {
    var late := at + cfg.repeatTimeout + 1;
    assert Step(cfg, s, Repeat(i, late, late)) == CheckRepeat(cfg, s, i, late, late);
    RepeatTurn(cfg, s, i, late);
    TimeoutLeavesOne(s.paths[i], late);
  }

  lemma TimeoutLeavesOne(p: PathState, late: int)
    requires p.sent != []
    ensures var q := Requeue(SendBackInfo(p, late));
            && q.proto == p.proto && q.tcp == p.tcp && q.lastSent == late && q.h.lost == p.h.lost
            && |q.sent| == 1 && q.h.txs == p.h.txs && q.h.va == p.h.va && q.repeat == p.repeat + 1
  {
  }

  lemma {:induction false} Filled(cfg: SysConf, evs: seq<Event>, i: nat, n: nat, width: nat, rep: nat, at: nat, k: nat)
    returns (more: seq<Event>)
    requires i < |cfg.paths| && InFlight(Reached(cfg, 0, 0, evs), i, n, width, rep, at) && n + k <= cfg.paths[i].ratio
    ensures InFlight(Reached(cfg, 0, 0, more), i, n + k, width + k, rep, at)
    decreases k
  {
    more := evs;
    if k > 0 {
      var before := Filled(cfg, evs, i, n, width, rep, at, k - 1);
      more := before + [TcCommand(0, 0, at)];
      RunThen(cfg, before, TcCommand(0, 0, at));
      ReachedIsReady(cfg, before);
      OneMoreCommand(cfg, Reached(cfg, 0, 0, before), i, n + k - 1, width + k - 1, rep, at);
    }
  }

  /** In every configuration a run fills the window of any path, and n timeouts with refills widen it by
      ratio-1 each: the bound on the drift is attained. */
  lemma {:induction false} WidestIsReached(cfg: SysConf, i: nat, n: nat) returns (evs: seq<Event>, at: nat)
    requires i < |cfg.paths| && cfg.paths[i].ratio >= 1 && n <= Repeats(cfg.paths[i])
    ensures var c := cfg.paths[i];
            InFlight(Reached(cfg, 0, 0, evs), i, c.ratio, c.ratio + DriftLimit(c, n), n, at)
    decreases n
  {
    if n == 0 {
      evs, at := FirstWindow(cfg, i);
    } else {
      var before, t := WidestIsReached(cfg, i, n - 1);
      evs, at := NextWindow(cfg, i, before, cfg.paths[i].ratio + DriftLimit(cfg.paths[i], n - 1), n - 1, t);
    }
  }

  lemma FirstWindow(cfg: SysConf, i: nat) returns (evs: seq<Event>, at: nat)
    requires i < |cfg.paths|
    ensures InFlight(Reached(cfg, 0, 0, evs), i, cfg.paths[i].ratio, cfg.paths[i].ratio, 0, at)
  {
    var s := Opened(cfg, i);
    at := OpeningTime(cfg, i);
    evs := Filled(cfg, OpeningEvents(cfg, i), i, 0, 0, 0, at, cfg.paths[i].ratio);
  }

  lemma NextWindow(cfg: SysConf, i: nat, before: seq<Event>, width: nat, rep: nat, t: nat)
    returns (evs: seq<Event>, at: nat)
    requires i < |cfg.paths| && cfg.paths[i].ratio >= 1 && rep < cfg.paths[i].repeatMax
    requires InFlight(Reached(cfg, 0, 0, before), i, cfg.paths[i].ratio, width, rep, t)
    ensures InFlight(Reached(cfg, 0, 0, evs), i, cfg.paths[i].ratio, width + cfg.paths[i].ratio - 1, rep + 1, at)
  {
    at := t + cfg.repeatTimeout + 1;
    RunThen(cfg, before, Repeat(i, at, at));
    ReachedIsReady(cfg, before);
    OneMoreTimeout(cfg, Reached(cfg, 0, 0, before), i, cfg.paths[i].ratio, width, rep, t);
    evs := Filled(cfg, before + [Repeat(i, at, at)], i, 1, width, rep + 1, at, cfg.paths[i].ratio - 1);
  }

  /** Every number of the window of path i is recognised, and for what it is. */
  predicate Readable(s: Sys, i: nat) {
    i < |s.paths| && Sending(s.paths[i]) && !s.paths[i].h.lost ==>
      var p := s.paths[i];
      forall k: nat | p.h.va <= k <= |p.h.txs| :: IsNRValid(p.nrr, p.ns, k % 8) && k == p.h.va + NROffset(p.nrr, k % 8)
  }

  lemma ReadableIff(cfg: SysConf, current: nat, now: int, evs: seq<Event>, i: nat)
    requires i < |cfg.paths|
    ensures var s := Reached(cfg, current, now, evs);
            && i < |s.paths|
            && (Sending(s.paths[i]) && !s.paths[i].h.lost ==>
                  (Readable(s, i) <==> |s.paths[i].h.txs| - s.paths[i].h.va <= 7))
  {
    ReachedLink(cfg, current, now, evs, i);
    var p := Reached(cfg, current, now, evs).paths[i];
    WindowLimitIsSeven(p.h.va, |p.h.txs|);
  }

  /** Main result. In every run, up to the first NR accepted after a timeout with several messages in flight,
      NR validation recognises every number of the window for what it is, if and only if
      ratio + repeats * (ratio - 1) is at most seven. The defaults give seven. */
  lemma UnambiguousIff(cfg: SysConf, i: nat)
    requires i < |cfg.paths| && cfg.paths[i].ratio >= 1
    ensures (forall current: nat, now: int, evs: seq<Event> :: Readable(Reached(cfg, current, now, evs), i))
            <==> WidestWindow(cfg.paths[i]) <= 7
  {
    var c := cfg.paths[i];
    if WidestWindow(c) <= 7 {
      forall current: nat, now: int, evs: seq<Event> ensures Readable(Reached(cfg, current, now, evs), i) {
        ReadableIff(cfg, current, now, evs, i);
        DriftIsBounded(cfg, current, now, evs, i);
      }
    } else {
      var evs := WidestIsUnreadable(cfg, i);
    }
  }

  lemma WidestIsUnreadable(cfg: SysConf, i: nat) returns (evs: seq<Event>)
    requires i < |cfg.paths| && cfg.paths[i].ratio >= 1 && WidestWindow(cfg.paths[i]) > 7
    ensures !Readable(Reached(cfg, 0, 0, evs), i)
  {
    var at;
    evs, at := WidestIsReached(cfg, i, Repeats(cfg.paths[i]));
    DriftLimitIs(cfg.paths[i], Repeats(cfg.paths[i]));
    ReadableIff(cfg, 0, 0, evs, i);
  }

  /** Within that bound, in every run, an NR is valid exactly when it stands for a number of the window, and
      that number is unique, even after timeouts with several messages in flight. */
  lemma DriftedNRMeansOneNumber(cfg: SysConf, current: nat, now: int, evs: seq<Event>, i: nat, nr: int)
    requires i < |cfg.paths| && cfg.paths[i].ratio >= 1 && WidestWindow(cfg.paths[i]) <= 7 && 0 <= nr < 8
    ensures var s := Reached(cfg, current, now, evs);
            && i < |s.paths|
            && var p := s.paths[i];
               Sending(p) && !p.h.lost ==>
                 && (IsNRValid(p.nrr, p.ns, nr) <==> exists k: nat :: Denotes(p.h.va, |p.h.txs|, nr, k))
                 && (forall k: nat :: Denotes(p.h.va, |p.h.txs|, nr, k) ==> k == p.h.va + NROffset(p.nrr, nr))
  {
    ReachedLink(cfg, current, now, evs, i);
    DriftIsBounded(cfg, current, now, evs, i);
    var p := Reached(cfg, current, now, evs).paths[i];
    if Sending(p) && !p.h.lost {
      NRValidExact(p.h.va, |p.h.txs|, nr);
    }
  }

  // ---------------------------------------------------------------- a full window

  /** In every configuration a run reaches a full window: a command then waits and is not pending. */
  lemma CommandIsDelayed(cfg: SysConf, i: nat, kind: CommandKind, address: int, value: int, at: int)
    returns (evs: seq<Event>)
    requires i < |cfg.paths|
    ensures var s := Reached(cfg, 0, 0, evs);
            var r := Step(cfg, s, CommandEvent(kind, address, value, at));
            && s.active == Some(i) && i < |s.paths| == |r.paths|
            && r.paths[i].waiting == s.paths[i].waiting + [CommandPayload(kind, address, value)]
            && r.paths[i].commands == s.paths[i].commands && r.paths[i].h.wire == s.paths[i].h.wire
  {
    var at0;
    evs, at0 := FirstWindow(cfg, i);
    CommandIsPendingIffSent(cfg, 0, 0, evs, kind, address, value, at);
  }

  // ---------------------------------------------------------------- SARMs

  /** The number of SARMs in a row stays within max_sarm in every run if and only if max_sarm is not 0. */
  lemma SarmBoundIff(cfg: SysConf, i: nat)
    requires i < |cfg.paths|
    ensures (forall current: nat, now: int, evs: seq<Event> :: SarmWithinMax(cfg, i, current, now, evs))
            <==> cfg.paths[i].maxSarm >= 1
  {
    if cfg.paths[i].maxSarm >= 1 {
      forall current: nat, now: int, evs: seq<Event> ensures SarmWithinMax(cfg, i, current, now, evs) {
        PersistenceIsBounded(cfg, current, now, evs, i);
      }
    } else {
      FirstSarmIsTooMany(cfg, i, cfg.paths[i].repeatTimeout);
      assert !SarmWithinMax(cfg, i, 0, cfg.paths[i].repeatTimeout, [Manage(i, cfg.paths[i].repeatTimeout)]);
    }
  }

  predicate SarmWithinMax(cfg: SysConf, i: nat, current: nat, now: int, evs: seq<Event>) {
    var s := Reached(cfg, current, now, evs);
    i < |s.paths| && i < |cfg.paths| ==> s.paths[i].sarmSent <= cfg.paths[i].maxSarm
  }

  lemma FirstSarmIsTooMany(cfg: SysConf, i: nat, at: int)
    requires i < |cfg.paths| && cfg.paths[i].maxSarm == 0 && at == cfg.paths[i].repeatTimeout
    ensures !SarmWithinMax(cfg, i, 0, at, [Manage(i, at)])
  {
    var s := Initial(cfg, 0, at);
    var e := Manage(i, at);
    InitialIsGood(cfg, 0, at);
    InvIsReady(cfg, s);
    assert [e][..0] == [];
    assert Run(cfg, s, [e]) == Step(cfg, s, e) == SarmTurn(cfg, s, i, at);
    SarmAfterMaximum(s, i, at);
  }
}
