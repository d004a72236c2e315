/** What starts a General Interrogation: a request from outside, and a TSCE with the configured value. */
module GiTriggers {
  import opened HnzTypes
  import opened GiLog
  import opened Link
  import opened LinkInvariants
  import opened HnzSystem
  import opened Arbitration
  import opened SystemInvariants
  import opened Theorems
  import opened PathSteps
  import opened Acknowledgements
  import opened GiRequests
  import Commands
  import Messages

  predicate GiRuns(cfg: SysConf, log: seq<GiMark>) {
    StatusOf(cfg, log) == GiStarted || StatusOf(cfg, log) == GiInProgress
  }

  /** A GI is asked for: without an active path nothing happens; while one runs it is delayed; otherwise the request
      is handed to the link layer of the active path, and noted. */
  predicate AskedFor(cfg: SysConf, s: Sys, r: Sys) {
    if s.active.None? then r == s
    else if GiRuns(cfg, s.giLog) then r == s.(fledge := s.fledge.(giInQueue := true))
    else
      var i := s.active.value;
      && i < |s.paths| == |r.paths| == |cfg.paths| && r.fledge.giInQueue == s.fledge.giInQueue
      && r.giLog == s.giLog + [Requested(|s.paths[i].sent| < cfg.paths[i].ratio)]
      && r.paths[i].h.accepted == s.paths[i].h.accepted + [[0x13, 0x01]]
      && forall j | 0 <= j < |s.paths| && j != i :: r.paths[j] == s.paths[j]
  }

  lemma RequestAsks(cfg: SysConf, s: Sys, now: int)
    requires WellSized(cfg, s) && ActiveConnected(s) && s.fledge.giStatus == StatusOf(cfg, s.giLog)
    ensures AskedFor(cfg, s, RequestGi(cfg, s, now))
  {
  }

  /** Main result. In every run a request from outside asks for a GI. */
  lemma RequestIs(cfg: SysConf, current: nat, now: int, evs: seq<Event>, at: int)
    requires !Reached(cfg, current, now, evs).crashed
    ensures var s := Reached(cfg, current, now, evs); AskedFor(cfg, s, Step(cfg, s, GiRequest(at)))
  {
    var s := Reached(cfg, current, now, evs);
    assert Ready(cfg, s) && ActiveConnected(s) by {
      RunKeepsInv(cfg, current, now, evs);
      InvIsReady(cfg, s);
      ActiveIsConnected(cfg, s);
    }
    StatusIs(cfg, current, now, evs);
    RequestAsks(cfg, s, at);
  }

  /** The TS is configured to start a GI when it takes this value: the address in tens and units, the value in one
      bit. */
  predicate Triggers(cfg: SysConf, high: Byte, low: Byte) {
    var address: nat := 10 * (high as int) + low / 32;
    address in cfg.tsAddresses && address in cfg.triggers && cfg.triggers[address] == low / 8 % 2
  }

  lemma TsceAsks(cfg: SysConf, s: Sys, m: Payload, now: int)
    requires WellSized(cfg, s) && ActiveConnected(s) && s.fledge.giStatus == StatusOf(cfg, s.giLog)
    requires |m| == 5 && m[0] == 0x0b
    ensures var r := HandleMessage(cfg, s, m, now);
            if Triggers(cfg, m[1], m[2]) then AskedFor(cfg, s, r) else r == s
  {
    Commands.JoinedAddressIs(m[1], m[2]);
    RequestAsks(cfg, s, now);
  }

  /** Main result. In every run a TSCE, in a frame of its own whose NR is taken, on the path that delivers, asks for a
      GI if and only if its TS takes the value configured for that; the frame itself touches its path only. */
  lemma TsceTriggersIff(cfg: SysConf, current: nat, now: int, evs: seq<Event>, k: nat, f: Frame, at: int)
    requires k < |cfg.paths| && !Reached(cfg, current, now, evs).crashed
    requires f.INFO? && 0 <= f.ns < 8 && 0 <= f.nr < 8 && |f.payload| == 5 && f.payload[0] == 0x0b
    requires var s := Reached(cfg, current, now, evs);
             k < |s.paths| && CanExtract(s, k) && TakesNR(s.paths[k], f.nr)
    ensures var s := Reached(cfg, current, now, evs);
            var r := Step(cfg, s, Receive(k, f, at));
            && Ready(cfg, s) && Expressible(cfg.paths[k], f)
            && var s1 := AnswerInfo(cfg, s, k, f, at).0;
               && s1 == s.(paths := s1.paths)
               && if Triggers(cfg, f.payload[1], f.payload[2]) then AskedFor(cfg, s1, r) else r == s1
  {
    var s := Reached(cfg, current, now, evs);
    TsceIsWhole(cfg.paths[k].bulleReceive, f.payload);
    HandedUpIff(cfg, current, now, evs, k, f, at);
    assert Ready(cfg, s) && ActiveConnected(s) && InputOpen(s.paths[k]) by {
      RunKeepsInv(cfg, current, now, evs);
      InvIsReady(cfg, s);
      ActiveIsConnected(cfg, s);
      ExclusiveDelivery(cfg, current, now, evs, k, k);
    }
    StatusIs(cfg, current, now, evs);
    TsceStep(cfg, s, k, f, at);
  }

  lemma TsceIsWhole(bulle: (Byte, Byte), m: Payload)
    requires |m| == 5 && m[0] == 0x0b
    ensures Messages.Uncut(bulle, m) && Messages.Extract(bulle, m) == [m] && WholeMessage(m)
  {
  }

  lemma TsceStep(cfg: SysConf, s: Sys, k: nat, f: Frame, at: int)
    requires Ready(cfg, s) && !s.crashed && k < |s.paths| && InputOpen(s.paths[k]) && ActiveConnected(s)
    requires f.INFO? && |f.payload| == 5 && f.payload[0] == 0x0b && Expressible(cfg.paths[k], f)
    requires AnswerInfo(cfg, s, k, f, at).1 == [f.payload] && s.fledge.giStatus == StatusOf(cfg, s.giLog)
    ensures var s1 := AnswerInfo(cfg, s, k, f, at).0;
            var r := Step(cfg, s, Receive(k, f, at));
            && s1 == s.(paths := s1.paths)
            && if Triggers(cfg, f.payload[1], f.payload[2]) then AskedFor(cfg, s1, r) else r == s1
  {
    var (s1, ms) := AnswerInfo(cfg, s, k, f, at);
    AnswerKeepsActive(cfg, s, k, f, at);
    InfoStep(cfg, s, k, f, at);
    assert [f.payload][1..] == [];
    assert HandleMessages(cfg, s1, [f.payload], at) == HandleMessage(cfg, s1, f.payload, at);
    TsceAsks(cfg, s1, f.payload, at);
  }
}
