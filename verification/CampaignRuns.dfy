/** A campaign that goes through all its requests: the peer acknowledges each of them and never answers. */
module CampaignRuns {
  import opened HnzTypes
  import opened GiLog
  import opened Link
  import opened HnzSystem
  import opened Arbitration
  import opened SystemInvariants
  import opened Theorems
  import opened Scenarios
  import opened GiSchedules
  import opened Campaign
  import GiReports
  import GiResult

  /** The time of the n-th timeout. */
  function Late(cfg: SysConf, i: nat, n: nat): nat
    requires i < |cfg.paths|
  {
    if n == 0 then OpeningTime(cfg, i) else Late(cfg, i, n - 1) + cfg.giTimeMax + 1
  }

  /** The path opens, a GI is requested, and n times the request is acknowledged and times out. */
  function Attempts(cfg: SysConf, i: nat, n: nat): (evs: seq<Event>)
    requires i < |cfg.paths|
    ensures |evs| == 4 + 2 * n
  {
    var t := OpeningTime(cfg, i);
    if n == 0 then OpeningEvents(cfg, i) + [GiRequest(t)]
    else Attempts(cfg, i, n - 1) + [Receive(i, RR(n % 8, false), t)] + [GiTurn(Late(cfg, i, n), Late(cfg, i, n))]
  }

  function Positions(n: nat): seq<nat> {
    seq(n + 1, k => 4 + 2 * k)
  }

  /** The states of a run from the start of the program at time 0. */
  function StatesOf(cfg: SysConf, evs: seq<Event>): (tr: seq<Sys>)
    ensures States(cfg, 0, 0, evs, tr)
  {
    seq(|evs| + 1, n requires 0 <= n <= |evs| => Reached(cfg, 0, 0, evs[..n]))
  }

  /** k requests were sent, the last one at time `at`; `inFlight` of them are not acknowledged. */
  predicate Running(cfg: SysConf, s: Sys, i: nat, k: nat, at: int, inFlight: nat) {
    && WellSized(cfg, s) && !s.crashed && i < |s.paths| && s.active == Some(i)
    && s.giRepeat == k && s.giStart == at && !s.fledge.giInQueue && s.fledge.giReceived == []
    && Unanswered(s.paths[i], k, inFlight)
  }

  predicate Unanswered(p: PathState, k: nat, inFlight: nat) {
    && p.proto == Connected && |p.sent| == inFlight && inFlight <= 1 && p.waiting == []
    && p.ns == k % 8 && p.nrr == (k - inFlight) % 8
  }

  lemma FirstAttempt(cfg: SysConf, i: nat)
    requires i < |cfg.paths| && cfg.paths[i].ratio >= 1
    ensures Running(cfg, Reached(cfg, 0, 0, Attempts(cfg, i, 0)), i, 1, Late(cfg, i, 0), 1)
  {
    var t := OpeningTime(cfg, i);
    var s := Opened(cfg, i);
    ReachedIsReady(cfg, OpeningEvents(cfg, i));
    GiReports.OpenedListIsEmpty(cfg, s, i);
    OpenedCounts(cfg, s, i);
    GiGoesOut(cfg, s, i, t, t);
    RunThen(cfg, OpeningEvents(cfg, i), GiRequest(t));
  }

  lemma OpenedCounts(cfg: SysConf, s: Sys, i: nat)
    requires Opening(cfg, s, i, Connected)
    ensures s.giRepeat == 0
  {
  }

  /** The RR acknowledges the request. */
  lemma Acknowledged(cfg: SysConf, s: Sys, i: nat, k: nat, at: int, t: int)
    requires Ready(cfg, s) && Running(cfg, s, i, k, at, 1) && k >= 1
    ensures var r := Step(cfg, s, Receive(i, RR(k % 8, false), t));
            Running(cfg, r, i, k, at, 0) && r.giLog == s.giLog
  {
    Pops(cfg.paths[i], s.paths[i], k, t);
    assert Step(cfg, s, Receive(i, RR(k % 8, false), t))
           == SetPath(s, i, ReceivedRR(cfg.paths[i], s.paths[i], k % 8, false, t).state);
  }

  lemma Pops(c: PathConf, p: PathState, k: nat, t: int)
    requires WaitingSendable(c, p) && Unanswered(p, k, 1) && k >= 1
    ensures Unanswered(ReceivedRR(c, p, k % 8, false, t).state, k, 0)
  {
    assert p.nrr == (k - 1) % 8;
  }

  lemma TurnTimesOut(cfg: SysConf, s: Sys, i: nat, k: nat, at: int, late: nat)
    requires Running(cfg, s, i, k, at, 0) && cfg.paths[i].ratio >= 1
    requires !cfg.schedule.active && at + cfg.giTimeMax < late
    ensures TimeoutTurn(cfg, s, GiTurn(late, late))
  {
  }

  /** The turn sends the next request. */
  lemma Retried(cfg: SysConf, s: Sys, i: nat, k: nat, at: int, late: nat)
    requires SysInv(cfg, s) && Running(cfg, s, i, k, at, 0) && 1 <= k <= cfg.giRepeatMax && cfg.paths[i].ratio >= 1
    requires !cfg.schedule.active && at + cfg.giTimeMax < late
    ensures Running(cfg, Step(cfg, s, GiTurn(late, late)), i, k + 1, late, 1)
  {
    RetryGoesOut(cfg, s, i, k, at, late);
    var r := Step(cfg, s, GiTurn(late, late));
    assert r == CheckGiTimeout(cfg, s, late, late).(sched := r.sched) by {
      TurnTimesOut(cfg, s, i, k, at, late);
      TurnIsTimeout(cfg, s, GiTurn(late, late));
    }
  }

  lemma RetryGoesOut(cfg: SysConf, s: Sys, i: nat, k: nat, at: int, late: nat)
    requires Running(cfg, s, i, k, at, 0) && 1 <= k <= cfg.giRepeatMax && cfg.paths[i].ratio >= 1
    requires at + cfg.giTimeMax < late
    ensures Running(cfg, CheckGiTimeout(cfg, s, late, late), i, k + 1, late, 1)
  {
  }

  /** Acknowledged, it times out at the next turn. */
  lemma AckedTimesOut(cfg: SysConf, s: Sys, i: nat, k: nat, at: int, t: int, late: nat)
    requires Ready(cfg, s) && Running(cfg, s, i, k, at, 1) && k >= 1 && cfg.paths[i].ratio >= 1
    requires !cfg.schedule.active && at + cfg.giTimeMax < late
    ensures var r := Step(cfg, s, Receive(i, RR(k % 8, false), t));
            && TimeoutTurn(cfg, r, GiTurn(late, late)) && r.giLog == s.giLog
            && !r.fledge.giInQueue && r.fledge.giReceived == []
  {
    Acknowledged(cfg, s, i, k, at, t);
    TurnTimesOut(cfg, Step(cfg, s, Receive(i, RR(k % 8, false), t)), i, k, at, late);
  }

  lemma AckedIsRetried(cfg: SysConf, s: Sys, r: Sys, i: nat, k: nat, at: int, t: int, late: nat)
    requires Ready(cfg, s) && Running(cfg, s, i, k, at, 1) && 1 <= k <= cfg.giRepeatMax && cfg.paths[i].ratio >= 1
    requires !cfg.schedule.active && at + cfg.giTimeMax < late
    requires r == Step(cfg, s, Receive(i, RR(k % 8, false), t)) && SysInv(cfg, r)
    ensures Running(cfg, Step(cfg, r, GiTurn(late, late)), i, k + 1, late, 1)
  {
    assert Running(cfg, r, i, k, at, 0) by {
      Acknowledged(cfg, s, i, k, at, t);
    }
    Retried(cfg, r, i, k, at, late);
  }

  /** The n-th request is acknowledged. */
  function Acked(cfg: SysConf, i: nat, n: nat): seq<Event>
    requires i < |cfg.paths| && n >= 1
  {
    Attempts(cfg, i, n - 1) + [Receive(i, RR(n % 8, false), OpeningTime(cfg, i))]
  }

  lemma AckedFollows(cfg: SysConf, i: nat, n: nat)
    requires i < |cfg.paths| && n >= 1
    ensures Reached(cfg, 0, 0, Acked(cfg, i, n))
            == Step(cfg, Reached(cfg, 0, 0, Attempts(cfg, i, n - 1)), Receive(i, RR(n % 8, false), OpeningTime(cfg, i)))
    ensures Reached(cfg, 0, 0, Attempts(cfg, i, n))
            == Step(cfg, Reached(cfg, 0, 0, Acked(cfg, i, n)), GiTurn(Late(cfg, i, n), Late(cfg, i, n)))
  {
    RunThen(cfg, Attempts(cfg, i, n - 1), Receive(i, RR(n % 8, false), OpeningTime(cfg, i)));
    RunThen(cfg, Acked(cfg, i, n), GiTurn(Late(cfg, i, n), Late(cfg, i, n)));
  }

  /** After n timeouts n + 1 requests were sent. */
  lemma {:induction false} AttemptsRun(cfg: SysConf, i: nat, n: nat)
    requires i < |cfg.paths| && cfg.paths[i].ratio >= 1 && !cfg.schedule.active && n <= cfg.giRepeatMax
    ensures Running(cfg, Reached(cfg, 0, 0, Attempts(cfg, i, n)), i, n + 1, Late(cfg, i, n), 1)
    decreases n
  {
    if n == 0 {
      FirstAttempt(cfg, i);
    } else {
      AttemptsRun(cfg, i, n - 1);
      NextAttempt(cfg, i, n);
    }
  }

  lemma NextAttempt(cfg: SysConf, i: nat, n: nat)
    requires i < |cfg.paths| && cfg.paths[i].ratio >= 1 && !cfg.schedule.active && 1 <= n <= cfg.giRepeatMax
    requires Running(cfg, Reached(cfg, 0, 0, Attempts(cfg, i, n - 1)), i, n, Late(cfg, i, n - 1), 1)
    ensures Running(cfg, Reached(cfg, 0, 0, Attempts(cfg, i, n)), i, n + 1, Late(cfg, i, n), 1)
  {
    ReachedIsReady(cfg, Attempts(cfg, i, n - 1));
    RunKeepsInv(cfg, 0, 0, Acked(cfg, i, n));
    AckedFollows(cfg, i, n);
    AckedIsRetried(cfg, Reached(cfg, 0, 0, Attempts(cfg, i, n - 1)), Reached(cfg, 0, 0, Acked(cfg, i, n)), i, n,
                   Late(cfg, i, n - 1), OpeningTime(cfg, i), Late(cfg, i, n));
  }

  lemma {:induction false} AttemptsExtend(cfg: SysConf, i: nat, n: nat, m: nat)
    requires i < |cfg.paths| && m <= n
    ensures |Attempts(cfg, i, m)| <= |Attempts(cfg, i, n)|
    ensures Attempts(cfg, i, n)[..|Attempts(cfg, i, m)|] == Attempts(cfg, i, m)
    decreases n
  {
    if m < n {
      AttemptsExtend(cfg, i, n - 1, m);
    }
  }

  /** Positions in the longest run. */
  lemma AttemptAt(cfg: SysConf, i: nat, n: nat, m: nat)
    requires i < |cfg.paths| && 1 <= m <= n
    ensures var evs := Attempts(cfg, i, n);
            && 4 + 2 * m <= |evs| && evs[..2 + 2 * m] == Attempts(cfg, i, m - 1)
            && evs[..3 + 2 * m] == Acked(cfg, i, m)
            && evs[2 + 2 * m] == Receive(i, RR(m % 8, false), OpeningTime(cfg, i))
            && evs[3 + 2 * m] == GiTurn(Late(cfg, i, m), Late(cfg, i, m))
  {
    AttemptsExtend(cfg, i, n, m);
    var evs, part := Attempts(cfg, i, n), Attempts(cfg, i, m);
    assert evs[..4 + 2 * m] == part;
    assert evs[..2 + 2 * m] == part[..2 + 2 * m] && evs[..3 + 2 * m] == part[..3 + 2 * m];
    assert evs[2 + 2 * m] == part[2 + 2 * m] && evs[3 + 2 * m] == part[3 + 2 * m];
  }

  /** The m-th timeout of this run follows the one before. */
  lemma AttemptFollows(cfg: SysConf, i: nat, n: nat, tr: seq<Sys>, m: nat)
    requires i < |cfg.paths| && cfg.paths[i].ratio >= 1 && !cfg.schedule.active && 1 <= m <= n <= cfg.giRepeatMax + 1
    requires States(cfg, 0, 0, Attempts(cfg, i, n), tr)
    ensures NextTimeout(cfg, Attempts(cfg, i, n), tr, 2 + 2 * m, 4 + 2 * m)
    ensures !tr[3 + 2 * m].fledge.giInQueue && tr[3 + 2 * m].fledge.giReceived == []
  {
    RunningAt(cfg, i, n, tr, m);
    RunningFollows(cfg, i, n, tr, m);
  }

  lemma RunningAt(cfg: SysConf, i: nat, n: nat, tr: seq<Sys>, m: nat)
    requires i < |cfg.paths| && cfg.paths[i].ratio >= 1 && !cfg.schedule.active && 1 <= m <= n <= cfg.giRepeatMax + 1
    requires States(cfg, 0, 0, Attempts(cfg, i, n), tr)
    ensures Running(cfg, tr[2 + 2 * m], i, m, Late(cfg, i, m - 1), 1)
  {
    AttemptAt(cfg, i, n, m);
    AttemptsRun(cfg, i, m - 1);
  }

  lemma StateIsReady(cfg: SysConf, evs: seq<Event>, tr: seq<Sys>, n: nat)
    requires States(cfg, 0, 0, evs, tr) && n < |tr|
    ensures Ready(cfg, tr[n])
  {
    StatesKeepInv(cfg, 0, 0, evs, tr, n);
    InvIsReady(cfg, tr[n]);
  }

  lemma RunningFollows(cfg: SysConf, i: nat, n: nat, tr: seq<Sys>, m: nat)
    requires i < |cfg.paths| && cfg.paths[i].ratio >= 1 && !cfg.schedule.active && 1 <= m <= n
    requires States(cfg, 0, 0, Attempts(cfg, i, n), tr) && Running(cfg, tr[2 + 2 * m], i, m, Late(cfg, i, m - 1), 1)
    ensures NextTimeout(cfg, Attempts(cfg, i, n), tr, 2 + 2 * m, 4 + 2 * m)
    ensures !tr[3 + 2 * m].fledge.giInQueue && tr[3 + 2 * m].fledge.giReceived == []
  {
    var evs := Attempts(cfg, i, n);
    var s := tr[2 + 2 * m];
    AttemptAt(cfg, i, n, m);
    StateIsReady(cfg, evs, tr, 2 + 2 * m);
    assert tr[3 + 2 * m] == Step(cfg, s, Receive(i, RR(m % 8, false), OpeningTime(cfg, i))) by {
      StatesFollow(cfg, 0, 0, evs, tr, 2 + 2 * m);
    }
    AckedTimesOut(cfg, s, i, m, Late(cfg, i, m - 1), OpeningTime(cfg, i), Late(cfg, i, m));
  }

  lemma FirstIsCounted(cfg: SysConf, i: nat, n: nat, tr: seq<Sys>)
    requires i < |cfg.paths| && cfg.paths[i].ratio >= 1 && States(cfg, 0, 0, Attempts(cfg, i, n), tr)
    ensures tr[4].giRepeat == 1
  {
    AttemptsExtend(cfg, i, n, 0);
    FirstAttempt(cfg, i);
  }

  lemma AttemptsTimeOut(cfg: SysConf, i: nat, n: nat, tr: seq<Sys>)
    requires i < |cfg.paths| && cfg.paths[i].ratio >= 1 && !cfg.schedule.active && 0 <= n <= cfg.giRepeatMax + 1
    requires cfg.giRepeatMax >= 0 && States(cfg, 0, 0, Attempts(cfg, i, n), tr)
    ensures Timeouts(cfg, Attempts(cfg, i, n), tr, Positions(n))
  {
    assert tr[4].giRepeat == 1 by {
      FirstIsCounted(cfg, i, n, tr);
    }
    forall k | 0 < k < n + 1
      ensures NextTimeout(cfg, Attempts(cfg, i, n), tr, Positions(n)[k - 1], Positions(n)[k])
    {
      AttemptFollows(cfg, i, n, tr, k);
    }
  }

  /** In every configuration without a daily GI, on every path: the campaign whose requests are all acknowledged and
      never answered is reached. It sends giRepeatMax + 1 requests and ends FAILED with every configured address
      sent as invalid. */
  lemma CampaignIsReached(cfg: SysConf, i: nat, a: nat)
    requires i < |cfg.paths| && cfg.paths[i].ratio >= 1 && !cfg.schedule.active && cfg.giRepeatMax >= 0
    ensures var evs := Attempts(cfg, i, cfg.giRepeatMax + 1);
            var r := Reached(cfg, 0, 0, evs);
            && Timeouts(cfg, evs, StatesOf(cfg, evs), Positions(cfg.giRepeatMax + 1))
            && r.giRepeat == 0 && r.fledge.giStatus == GiFailed
            && (a in r.fledge.invalidated <==> a in cfg.tsAddresses)
  {
    var n := cfg.giRepeatMax + 1;
    var evs := Attempts(cfg, i, n);
    var tr := StatesOf(cfg, evs);
    AttemptsTimeOut(cfg, i, n, tr);
    CampaignEnds(cfg, i, tr, a);
    assert evs[..|evs|] == evs;
  }

  lemma CampaignEnds(cfg: SysConf, i: nat, tr: seq<Sys>, a: nat)
    requires i < |cfg.paths| && cfg.paths[i].ratio >= 1 && !cfg.schedule.active && cfg.giRepeatMax >= 0
    requires States(cfg, 0, 0, Attempts(cfg, i, cfg.giRepeatMax + 1), tr)
    ensures var r := tr[|tr| - 1];
            r.giRepeat == 0 && r.fledge.giStatus == GiFailed && (a in r.fledge.invalidated <==> a in cfg.tsAddresses)
  {
    LastAdvances(cfg, i, tr);
    LastIsEmpty(cfg, i, tr);
    EndsFailed(cfg, tr[|tr| - 2], tr[|tr| - 1], cfg.giRepeatMax + 1, a);
  }

  lemma LastAdvances(cfg: SysConf, i: nat, tr: seq<Sys>)
    requires i < |cfg.paths| && cfg.paths[i].ratio >= 1 && !cfg.schedule.active && cfg.giRepeatMax >= 0
    requires States(cfg, 0, 0, Attempts(cfg, i, cfg.giRepeatMax + 1), tr)
    ensures Advanced(cfg, tr[|tr| - 2], tr[|tr| - 1], cfg.giRepeatMax + 1)
  {
    var n := cfg.giRepeatMax + 1;
    AttemptsTimeOut(cfg, i, n, tr);
    RetriesThenFails(cfg, 0, 0, Attempts(cfg, i, n), tr, Positions(n), n);
  }

  lemma LastIsEmpty(cfg: SysConf, i: nat, tr: seq<Sys>)
    requires i < |cfg.paths| && cfg.paths[i].ratio >= 1 && !cfg.schedule.active && cfg.giRepeatMax >= 0
    requires States(cfg, 0, 0, Attempts(cfg, i, cfg.giRepeatMax + 1), tr)
    ensures !tr[|tr| - 2].fledge.giInQueue && tr[|tr| - 2].fledge.giReceived == []
  {
    AttemptFollows(cfg, i, cfg.giRepeatMax + 1, tr, cfg.giRepeatMax + 1);
  }

  lemma EndsFailed(cfg: SysConf, s: Sys, r: Sys, n: nat, a: nat)
    requires Advanced(cfg, s, r, n) && n > cfg.giRepeatMax && !s.fledge.giInQueue && s.fledge.giReceived == []
    ensures r.giRepeat == 0 && r.fledge.giStatus == GiFailed && (a in r.fledge.invalidated <==> a in cfg.tsAddresses)
  {
    GiResult.ReceivedOrInvalid(cfg.tsAddresses, [], a);
  }

}
