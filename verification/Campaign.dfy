/** The General Interrogation campaign: retries driven by timeouts, and its end. */
module Campaign {
  import opened HnzTypes
  import opened GiLog
  import opened Link
  import opened LinkInvariants
  import opened HnzSystem
  import opened Arbitration
  import opened SystemInvariants
  import opened Theorems
  import opened GiReports
  import opened GiSchedules
  import opened DailyGi
  import GiResult

  /** The window of the active path has room for one more message. */
  predicate Room(cfg: SysConf, s: Sys) {
    WellSized(cfg, s) && s.active.Some? && |s.paths[s.active.value].sent| < cfg.paths[s.active.value].ratio
  }

  predicate TimedOut(cfg: SysConf, s: Sys, at: nat) {
    s.giStart + cfg.giTimeMax < at
  }

  /** The turn e of the supervisor in state s finds that the GI timed out, with room in the window; the daily GI is
      not due at it. */
  predicate TimeoutTurn(cfg: SysConf, s: Sys, e: Event) {
    && !s.crashed && Room(cfg, s) && e.GiTurn? && TimedOut(cfg, s, e.current)
    && !Tick(cfg.schedule, s.sched, e.current).1
  }

  /** The GI request goes out on the active path, for the first time. */
  predicate Requested(s: Sys, r: Sys) {
    && s.active.Some? && s.active.value < |s.paths| == |r.paths|
    && var p, q := s.paths[s.active.value], r.paths[s.active.value];
       q.h.wire == p.h.wire + [Tx(INFO(p.ns, p.nr, false, GI_REQUEST), Connected, |p.h.txs|, |p.h.rcv|)]
  }

  /** With room in the window a GI request is sent at once and counted. */
  lemma RequestIsSent(cfg: SysConf, s: Sys, now: int)
    requires SysInv(cfg, s) && Room(cfg, s)
    ensures var r := SendGeneralInterrogation(cfg, s, s.active.value, now);
            && Requested(s, r) && r.giRepeat == s.giRepeat + 1 && r.giStart == now
            && (r.fledge.giStatus == GiStarted || r.fledge.giStatus == GiInProgress)
            && (s.giRepeat == 0 ==> r.fledge.giStatus == GiStarted)
            && r.fledge.giReceived == s.fledge.giReceived && r.fledge.giInQueue == s.fledge.giInQueue
            && r.fledge.invalidated == s.fledge.invalidated && !r.crashed == !s.crashed
            && r.giLog == s.giLog + [GiMark.Requested(true)]
  {
    assert Abstracts(s.paths[s.active.value]);
  }

  lemma TurnIsTimeout(cfg: SysConf, s: Sys, e: Event)
    requires SysInv(cfg, s) && TimeoutTurn(cfg, s, e)
    ensures var r := Step(cfg, s, e); r == CheckGiTimeout(cfg, s, e.current, e.now).(sched := r.sched)
  {
    TurnIsCheckGi(cfg, s, e);
    TimeoutIsQuiet(cfg, s, e.current, e.now);
    TurnTicks(cfg, s, e.current, e.now);
  }

  lemma RetryIsSent(cfg: SysConf, s: Sys, e: Event)
    requires SysInv(cfg, s) && TimeoutTurn(cfg, s, e) && 1 <= s.giRepeat <= cfg.giRepeatMax
    ensures var after := Step(cfg, s, e);
            && after.giRepeat == s.giRepeat + 1 && Requested(s, after) && after.fledge.giReceived == []
            && CleanAttempt(cfg.tsAddresses, after.giLog)
  {
    TurnIsTimeout(cfg, s, e);
    ForgetReceivedKeepsInv(cfg, s);
    RequestIsSent(cfg, ForgetReceived(s), e.now);
    RepetitionIsClean(cfg.tsAddresses, s.giLog, true);
  }

  /** The last timeout: FAILED, and the configured addresses that are not in the list of received ones are sent
      as invalid. If another GI was delayed, it starts right away. */
  lemma CampaignFails(cfg: SysConf, s: Sys, e: Event)
    requires SysInv(cfg, s) && TimeoutTurn(cfg, s, e) && s.giRepeat > cfg.giRepeatMax && s.giRepeat != 0
    ensures var after := Step(cfg, s, e);
            && after.fledge.invalidated == GiResult.Unfiltered(cfg.tsAddresses, s.fledge.giReceived)
            && (!s.fledge.giInQueue ==> after.giRepeat == 0 && after.fledge.giStatus == GiFailed && after.paths == s.paths)
            && (s.fledge.giInQueue ==> after.giRepeat == 1 && after.fledge.giStatus == GiStarted
                                       && Requested(s, after) && !after.fledge.giInQueue)
  {
    TurnIsTimeout(cfg, s, e);
    if s.fledge.giInQueue {
      CloseKeepsInv(cfg, s, false);
      DelayedIsSent(cfg, s, CloseGi(cfg, s, false), e.now);
    }
  }

  lemma DelayedIsSent(cfg: SysConf, s: Sys, s1: Sys, at: int)
    requires SysInv(cfg, s1) && Room(cfg, s1) && s1.paths == s.paths && s1.active == s.active && s1.giRepeat == 0
    ensures var r := SendGeneralInterrogation(cfg, s1, s1.active.value, at);
            Requested(s, r) && r.giRepeat == 1 && r.fledge.giStatus == GiStarted
            && r.fledge.invalidated == s1.fledge.invalidated
  {
    RequestIsSent(cfg, s1, at);
  }

  /** The k-th timeout of a campaign: another request, or the end. */
  predicate Advanced(cfg: SysConf, s: Sys, after: Sys, k: int) {
    && (k <= cfg.giRepeatMax ==> after.giRepeat == k + 1 && Requested(s, after))
    && (k > cfg.giRepeatMax ==> after.fledge.invalidated == GiResult.Unfiltered(cfg.tsAddresses, s.fledge.giReceived))
    && (k > cfg.giRepeatMax && !s.fledge.giInQueue ==>
          after.giRepeat == 0 && after.fledge.giStatus == GiFailed && after.paths == s.paths)
  }

  lemma TimeoutAdvances(cfg: SysConf, s: Sys, e: Event)
    requires SysInv(cfg, s) && TimeoutTurn(cfg, s, e) && s.giRepeat >= 1
    ensures Advanced(cfg, s, Step(cfg, s, e), s.giRepeat)
  {
    if s.giRepeat <= cfg.giRepeatMax {
      RetryIsSent(cfg, s, e);
    } else {
      CampaignFails(cfg, s, e);
    }
  }

  // ---------------------------------------------------------------- campaigns of a run

  /** The states of a run, one before and one after each event. */
  predicate States(cfg: SysConf, current: nat, now: int, evs: seq<Event>, tr: seq<Sys>) {
    |tr| == |evs| + 1 && forall n | 0 <= n < |tr| :: tr[n] == Reached(cfg, current, now, evs[..n])
  }

  /** The last of the events from `from` to `to` is a timeout, and the others are no GI request, no end of a GI and no
      loss of the active path. */
  predicate NextTimeout(cfg: SysConf, evs: seq<Event>, tr: seq<Sys>, from: nat, to: nat)
    requires |tr| == |evs| + 1
  {
    && from < to <= |evs| && OnlyBrings(tr[from].giLog, tr[to - 1].giLog) && TimeoutTurn(cfg, tr[to - 1], evs[to - 1])
  }

  /** A campaign: it has sent one request at pos[0]; each further position is right after its next timeout. */
  predicate Timeouts(cfg: SysConf, evs: seq<Event>, tr: seq<Sys>, pos: seq<nat>)
    requires |tr| == |evs| + 1
  {
    && |pos| >= 1 && (forall k | 0 <= k < |pos| :: pos[k] <= |evs|) && tr[pos[0]].giRepeat == 1
    && (forall k | 0 < k < |pos| :: NextTimeout(cfg, evs, tr, pos[k - 1], pos[k]))
  }

  lemma StatesFollow(cfg: SysConf, current: nat, now: int, evs: seq<Event>, tr: seq<Sys>, n: nat)
    requires States(cfg, current, now, evs, tr) && n < |evs|
    ensures tr[n + 1] == Step(cfg, tr[n], evs[n])
  {
    assert evs[..n + 1] == evs[..n] + [evs[n]];
    Continues(cfg, current, now, evs[..n], evs[n]);
  }

  lemma AdvancesAt(cfg: SysConf, current: nat, now: int, evs: seq<Event>, tr: seq<Sys>, to: nat)
    requires States(cfg, current, now, evs, tr) && 1 <= to < |tr|
    requires TimeoutTurn(cfg, tr[to - 1], evs[to - 1]) && tr[to - 1].giRepeat >= 1
    ensures Advanced(cfg, tr[to - 1], tr[to], tr[to - 1].giRepeat)
  {
    var s := tr[to - 1];
    assert Advanced(cfg, s, Step(cfg, s, evs[to - 1]), s.giRepeat) by {
      StatesKeepInv(cfg, current, now, evs, tr, to - 1);
      TimeoutAdvances(cfg, s, evs[to - 1]);
    }
    StatesFollow(cfg, current, now, evs, tr, to - 1);
  }

  lemma RetryAt(cfg: SysConf, current: nat, now: int, evs: seq<Event>, tr: seq<Sys>, to: nat)
    requires States(cfg, current, now, evs, tr) && 1 <= to < |tr|
    requires TimeoutTurn(cfg, tr[to - 1], evs[to - 1]) && 1 <= tr[to - 1].giRepeat <= cfg.giRepeatMax
    ensures CleanAttempt(cfg.tsAddresses, tr[to].giLog)
  {
    var s, e := tr[to - 1], evs[to - 1];
    var r := Step(cfg, s, e);
    assert r == tr[to] by {
      StatesFollow(cfg, current, now, evs, tr, to - 1);
    }
    assert CleanAttempt(cfg.tsAddresses, r.giLog) by {
      StatesKeepInv(cfg, current, now, evs, tr, to - 1);
      RetryIsSent(cfg, s, e);
    }
  }

  lemma StatesKeepInv(cfg: SysConf, current: nat, now: int, evs: seq<Event>, tr: seq<Sys>, n: nat)
    requires States(cfg, current, now, evs, tr) && n < |tr|
    ensures SysInv(cfg, tr[n])
  {
    RunKeepsInv(cfg, current, now, evs[..n]);
  }

  lemma LogAt(cfg: SysConf, current: nat, now: int, evs: seq<Event>, tr: seq<Sys>, n: nat)
    requires States(cfg, current, now, evs, tr) && n < |tr|
    ensures tr[n].giRepeat == SentSince(tr[n].giLog)
    ensures tr[n].fledge.giReceived == ReceivedBy(cfg.tsAddresses, tr[n].giLog)
  {
    StatesKeepInv(cfg, current, now, evs, tr, n);
  }

  lemma CountStays(configured: seq<nat>, log: seq<GiMark>, longer: seq<GiMark>)
    requires OnlyBrings(log, longer)
    ensures SentSince(longer) == SentSince(log)
  {
    OnlyBringsKeeps(configured, log, longer);
  }

  lemma CountAt(cfg: SysConf, current: nat, now: int, evs: seq<Event>, tr: seq<Sys>, from: nat, to: nat)
    requires States(cfg, current, now, evs, tr) && NextTimeout(cfg, evs, tr, from, to)
    ensures tr[to - 1].giRepeat == tr[from].giRepeat
  {
    LogAt(cfg, current, now, evs, tr, from);
    LogAt(cfg, current, now, evs, tr, to - 1);
    CountStays(cfg.tsAddresses, tr[from].giLog, tr[to - 1].giLog);
  }

  lemma AdvancesFrom(cfg: SysConf, current: nat, now: int, evs: seq<Event>, tr: seq<Sys>, from: nat, to: nat)
    requires States(cfg, current, now, evs, tr) && NextTimeout(cfg, evs, tr, from, to) && tr[from].giRepeat >= 1
    ensures Advanced(cfg, tr[to - 1], tr[to], tr[from].giRepeat)
  {
    CountAt(cfg, current, now, evs, tr, from, to);
    AdvancesAt(cfg, current, now, evs, tr, to);
  }

  /** The log of an attempt that started from an empty list, and of the TSCGs since then. */
  predicate CleanAttempt(configured: seq<nat>, log: seq<GiMark>) {
    InAttempt(log) && Stale(configured, log) == []
  }

  /** Main result. In every run: driven by timeouts alone, with room in the window, a campaign that has sent its
      first request sends one more at each of the next giRepeatMax timeouts, and fails at the one after:
      giRepeatMax + 1 requests in all. The addresses missing from the list are then sent as invalid; what
      that says about the last attempt is LastAttemptIsExact. */
  lemma {:induction false} RetriesThenFails(cfg: SysConf, current: nat, now: int, evs: seq<Event>, tr: seq<Sys>,
                                            pos: seq<nat>, k: nat)
    requires States(cfg, current, now, evs, tr) && Timeouts(cfg, evs, tr, pos) && cfg.giRepeatMax >= 0 && k < |pos|
    ensures k <= cfg.giRepeatMax ==> tr[pos[k]].giRepeat == k + 1
    ensures 1 <= k <= cfg.giRepeatMax + 1 ==> pos[k] >= 1 && Advanced(cfg, tr[pos[k] - 1], tr[pos[k]], k)
    decreases k
  {
    if 1 <= k <= cfg.giRepeatMax + 1 {
      RetriesThenFails(cfg, current, now, evs, tr, pos, k - 1);
      AdvancesFrom(cfg, current, now, evs, tr, pos[k - 1], pos[k]);
    }
  }

  /** With at least one repetition the last attempt of a failed campaign started from an empty list: exactly
      the configured addresses it did not bring are sent as invalid. */
  lemma LastAttemptIsExact(cfg: SysConf, current: nat, now: int, evs: seq<Event>, tr: seq<Sys>, pos: seq<nat>, a: nat)
    requires States(cfg, current, now, evs, tr) && Timeouts(cfg, evs, tr, pos)
    requires cfg.giRepeatMax >= 1 && |pos| == cfg.giRepeatMax + 2
    ensures var end := pos[|pos| - 1];
            && 1 <= end <= |evs| && InAttempt(tr[end - 1].giLog)
            && (a in tr[end].fledge.invalidated
                <==> a in cfg.tsAddresses && a !in BroughtSince(cfg.tsAddresses, tr[end - 1].giLog))
  {
    var k := cfg.giRepeatMax + 1;
    LastRetryStartsClean(cfg, current, now, evs, tr, pos);
    RetriesThenFails(cfg, current, now, evs, tr, pos, k);
    var from, to := pos[k - 1], pos[k];
    assert NextTimeout(cfg, evs, tr, from, to);
    LastAttempt(cfg, current, now, evs, tr, from, to, a);
  }

  lemma LastRetryStartsClean(cfg: SysConf, current: nat, now: int, evs: seq<Event>, tr: seq<Sys>, pos: seq<nat>)
    requires States(cfg, current, now, evs, tr) && Timeouts(cfg, evs, tr, pos)
    requires cfg.giRepeatMax >= 1 && |pos| == cfg.giRepeatMax + 2
    ensures CleanAttempt(cfg.tsAddresses, tr[pos[|pos| - 2]].giLog)
  {
    var k := cfg.giRepeatMax;
    RetriesThenFails(cfg, current, now, evs, tr, pos, k - 1);
    var from, to := pos[k - 1], pos[k];
    assert NextTimeout(cfg, evs, tr, from, to);
    RetryStartsClean(cfg, current, now, evs, tr, from, to);
  }

  lemma RetryStartsClean(cfg: SysConf, current: nat, now: int, evs: seq<Event>, tr: seq<Sys>, from: nat, to: nat)
    requires States(cfg, current, now, evs, tr) && NextTimeout(cfg, evs, tr, from, to)
    requires 1 <= tr[from].giRepeat <= cfg.giRepeatMax
    ensures CleanAttempt(cfg.tsAddresses, tr[to].giLog)
  {
    CountAt(cfg, current, now, evs, tr, from, to);
    RetryAt(cfg, current, now, evs, tr, to);
  }

  lemma LastAttempt(cfg: SysConf, current: nat, now: int, evs: seq<Event>, tr: seq<Sys>, from: nat, to: nat, a: nat)
    requires States(cfg, current, now, evs, tr) && NextTimeout(cfg, evs, tr, from, to)
    requires CleanAttempt(cfg.tsAddresses, tr[from].giLog)
    requires tr[to].fledge.invalidated == GiResult.Unfiltered(cfg.tsAddresses, tr[to - 1].fledge.giReceived)
    ensures InAttempt(tr[to - 1].giLog)
    ensures a in tr[to].fledge.invalidated
            <==> a in cfg.tsAddresses && a !in BroughtSince(cfg.tsAddresses, tr[to - 1].giLog)
  {
    LogAt(cfg, current, now, evs, tr, to - 1);
    CleanIsExact(cfg.tsAddresses, tr[from].giLog, tr[to - 1].giLog, a);
  }

  lemma CleanIsExact(configured: seq<nat>, log: seq<GiMark>, longer: seq<GiMark>, a: nat)
    requires CleanAttempt(configured, log) && OnlyBrings(log, longer)
    ensures InAttempt(longer)
    ensures a in Reported(configured, longer) <==> a in configured && a !in BroughtSince(configured, longer)
  {
    OnlyBringsKeeps(configured, log, longer);
    ExactIff(configured, longer);
  }

  // ---------------------------------------------------------------- the result

  lemma EndInvalidates(cfg: SysConf, s: Sys, success: bool, now: int)
    requires WellSized(cfg, s)
    ensures GiCompleted(cfg, s, success, now).fledge.invalidated
            == GiResult.Unfiltered(cfg.tsAddresses, s.fledge.giReceived)
  {
  }

  /** Whatever ends a GI, the addresses its last request brought and those sent as invalid partition the
      configured ones, if and only if the list holds what that request brought. */
  lemma ResultPartitions(cfg: SysConf, s: Sys, success: bool, now: int)
    requires SysInv(cfg, s)
    ensures var invalid := GiCompleted(cfg, s, success, now).fledge.invalidated;
            var brought := BroughtSince(cfg.tsAddresses, s.giLog);
            (forall a :: (a in cfg.tsAddresses <==> a in invalid || a in brought) && !(a in invalid && a in brought))
            <==> ListOfRequest(cfg.tsAddresses, s.giLog)
  {
    EndInvalidates(cfg, s, success, now);
    ExactIff(cfg.tsAddresses, s.giLog);
    ExactPartitions(cfg.tsAddresses, s.giLog);
  }

  lemma ExactPartitions(configured: seq<nat>, log: seq<GiMark>)
    ensures var invalid, brought := Reported(configured, log), BroughtSince(configured, log);
            Exact(configured, log)
            <==> forall a :: (a in configured <==> a in invalid || a in brought) && !(a in invalid && a in brought)
  {
    forall a ensures a in Reported(configured, log) ==> a in configured {
      GiResult.ReceivedOrInvalid(configured, ReceivedBy(configured, log), a);
    }
  }
}
