/** Which acknowledgements a path takes, and which ones it gives. */
module Acknowledgements {
  import opened HnzTypes
  import opened Modulo8
  import opened Link
  import opened LinkInvariants
  import opened HnzSystem
  import opened Arbitration
  import opened SystemInvariants
  import opened Theorems
  import opened PathSteps
  import opened PathEvents
  import opened Scenarios

  // ---------------------------------------------------------------- taken

  /** Of what was sent in this session, the peer confirms the numbers below k: the confirmed messages that are still
      in flight leave the queue, the others stay in front, and the repetitions start to count again. */
  predicate Confirmed(p: PathState, q: PathState, k: nat) {
    var n := if k - p.h.va < |p.sent| then k - p.h.va else |p.sent|;
    && p.h.va <= k && q.h.va == k && 0 <= n <= |p.sent| && p.sent[n..] <= q.sent
    && q.h.popped == p.h.popped + Payloads(p.sent[..n])
    && q.h.acknowledged == p.h.acknowledged + Payloads(p.sent[..n])
    && q.repeat == 0 && q.nrr == k % 8 && q.h.discarded == p.h.discarded
  }

  lemma TakenConfirms(c: PathConf, p: PathState, k: nat, at: int)
    requires Numbered(p) && WaitingSendable(c, p) && p.h.va < k <= |p.h.txs| <= p.h.va + 7
    ensures k % 8 != p.nrr && IsNRValid(p.nrr, p.ns, k % 8) && Confirmed(p, NRAccepted(c, p, k % 8, at), k)
  {
    DenotedIsValid(p.h.va, |p.h.txs|, k);
    OtherResidue(p.h.va, k);
    PopConfirms(p, k, at);
    RefillSends(c, Pop(p, k % 8, at), at);
    SentKeepsConfirmed(p, Pop(p, k % 8, at), NRAccepted(c, p, k % 8, at), k, at);
  }

  lemma PopConfirms(p: PathState, k: nat, at: int)
    requires k == p.h.va + NROffset(p.nrr, k % 8)
    ensures Confirmed(p, Pop(p, k % 8, at), k)
  {
  }

  lemma OtherResidue(a: nat, k: nat)
    requires a < k <= a + 7
    ensures k % 8 != a % 8
  {
  }

  /** Main result. In every run, while at most seven numbers are outstanding: an RR for a number above VA confirms
      exactly the numbers below it if and only if its final bit is not set or a repetition went out since the last
      acknowledgement taken. Otherwise nothing changes. */
  lemma AckTakenIff(cfg: SysConf, current: nat, now: int, evs: seq<Event>, i: nat, k: nat, final: bool, at: int)
    requires i < |cfg.paths| && !Reached(cfg, current, now, evs).crashed
    requires var s := Reached(cfg, current, now, evs);
             i < |s.paths| && Sending(s.paths[i])
             && s.paths[i].h.va < k <= |s.paths[i].h.txs| <= s.paths[i].h.va + 7
    ensures var s := Reached(cfg, current, now, evs);
            var r := Step(cfg, s, Receive(i, RR(k % 8, final), at));
            && i < |r.paths| && s.paths[i].h.mark <= |s.paths[i].h.wire|
            && if !final || Resends(s.paths[i].h.wire[s.paths[i].h.mark..]) > 0 then Confirmed(s.paths[i], r.paths[i], k)
               else r == s
    ensures var s := Reached(cfg, current, now, evs);
            !s.paths[i].h.multi ==> k - s.paths[i].h.va <= |s.paths[i].sent|
  {
    var s := Reached(cfg, current, now, evs);
    assert Ready(cfg, s) && LinkInv(cfg.paths[i], s.paths[i]) by {
      RunKeepsInv(cfg, current, now, evs);
      InvIsReady(cfg, s);
    }
    TakenConfirms(cfg.paths[i], s.paths[i], k, at);
    RRStep(cfg, s, i, k % 8, final, at);
  }

  lemma RRStep(cfg: SysConf, s: Sys, i: nat, nr: int, final: bool, at: int)
    requires Ready(cfg, s) && !s.crashed && i < |s.paths| && 0 <= nr < 8
    ensures Step(cfg, s, Receive(i, RR(nr, final), at))
            == if s.paths[i].proto == Connection then s
               else SetPath(s, i, ReceivedRR(cfg.paths[i], s.paths[i], nr, final, at).state)
  {
  }

  /** An RR for any other number, or for VA itself, changes nothing. */
  lemma OtherAcksIgnored(cfg: SysConf, current: nat, now: int, evs: seq<Event>, i: nat, nr: int, final: bool, at: int)
    requires i < |cfg.paths| && !Reached(cfg, current, now, evs).crashed && 0 <= nr < 8
    requires var s := Reached(cfg, current, now, evs);
             i < |s.paths| && |s.paths[i].h.txs| <= s.paths[i].h.va + 7
             && forall k: nat :: Denotes(s.paths[i].h.va, |s.paths[i].h.txs|, nr, k) ==> k == s.paths[i].h.va
    ensures var s := Reached(cfg, current, now, evs); Step(cfg, s, Receive(i, RR(nr, final), at)) == s
  {
    var s := Reached(cfg, current, now, evs);
    var p := s.paths[i];
    assert Ready(cfg, s) && Numbered(p) by {
      RunKeepsInv(cfg, current, now, evs);
      InvIsReady(cfg, s);
      assert LinkInv(cfg.paths[i], p);
    }
    NRValidExact(p.h.va, |p.h.txs|, nr);
    RRStep(cfg, s, i, nr, final, at);
    assert SetPath(s, i, p) == s;
  }

  /** The NR of an information frame is always taken, whatever its poll bit. */
  lemma InfoAckTaken(cfg: SysConf, current: nat, now: int, evs: seq<Event>, i: nat, f: Frame, k: nat, at: int)
    requires i < |cfg.paths| && !Reached(cfg, current, now, evs).crashed
    requires f.INFO? && Expressible(cfg.paths[i], f) && f.nr == k % 8
    requires var s := Reached(cfg, current, now, evs);
             i < |s.paths| && s.paths[i].proto == Connected
             && s.paths[i].h.va < k <= |s.paths[i].h.txs| <= s.paths[i].h.va + 7
    ensures var s := Reached(cfg, current, now, evs);
            var r := Step(cfg, s, Receive(i, f, at));
            i < |r.paths| && Confirmed(s.paths[i], r.paths[i], k)
  {
    var s := Reached(cfg, current, now, evs);
    var c, p := cfg.paths[i], s.paths[i];
    assert Ready(cfg, s) && LinkInv(c, p) by {
      RunKeepsInv(cfg, current, now, evs);
      InvIsReady(cfg, s);
    }
    var (s1, ms) := AnswerInfo(cfg, s, i, f, at);
    assert Confirmed(p, s1.paths[i], k) by {
      AnswerConfirms(cfg, s, i, f, k, at);
    }
    InfoStep(cfg, s, i, f, at);
    MessagesSend(cfg, s1, ms, at);
    SentKeepsConfirmed(p, s1.paths[i], HandleMessages(cfg, s1, ms, at).paths[i], k, at);
  }

  lemma SentKeepsConfirmed(p: PathState, m: PathState, q: PathState, k: nat, at: int)
    requires Confirmed(p, m, k) && SentOnly(m, q, at)
    ensures Confirmed(p, q, k)
  {
  }

  lemma InfoStep(cfg: SysConf, s: Sys, i: nat, f: Frame, at: int)
    requires Ready(cfg, s) && !s.crashed && i < |s.paths| && f.INFO? && Expressible(cfg.paths[i], f)
    requires s.paths[i].proto != Connection
    ensures var (s1, ms) := AnswerInfo(cfg, s, i, f, at);
            Step(cfg, s, Receive(i, f, at)) == HandleMessages(cfg, s1, ms, at)
  {
  }

  lemma AnswerConfirms(cfg: SysConf, s: Sys, i: nat, f: Frame, k: nat, at: int)
    requires Ready(cfg, s) && i < |s.paths| && LinkInv(cfg.paths[i], s.paths[i]) && s.paths[i].proto == Connected
    requires f.INFO? && Expressible(cfg.paths[i], f) && f.nr == k % 8
    requires s.paths[i].h.va < k <= |s.paths[i].h.txs| <= s.paths[i].h.va + 7
    ensures Confirmed(s.paths[i], AnswerInfo(cfg, s, i, f, at).0.paths[i], k)
  {
    var c, p := cfg.paths[i], s.paths[i];
    var p1 := AnswerPath(cfg, s, i, f, at);
    TimersAreNotLink(c, p, p1);
    SendRRConfirms(c, p1, f, k, CanExtract(s, i), at);
    BulleKeepsConfirmed(p, p1, AnswerInfo(cfg, s, i, f, at).0.paths[i], k);
  }

  lemma BulleKeepsConfirmed(p: PathState, p1: PathState, q: PathState, k: nat)
    requires p1 == p.(lastMsg := p1.lastMsg) && Confirmed(p1, q, k)
    ensures Confirmed(p, q, k)
  {
  }

  /** The path that answers; only its inactivity timer may be set before. */
  lemma AnswerPath(cfg: SysConf, s: Sys, i: nat, f: Frame, at: int) returns (p1: PathState)
    requires Ready(cfg, s) && i < |s.paths| && f.INFO? && Expressible(cfg.paths[i], f) && InputOpen(s.paths[i])
    ensures p1 == s.paths[i].(lastMsg := p1.lastMsg) && WaitingSendable(cfg.paths[i], p1)
    ensures AnswerInfo(cfg, s, i, f, at).0.paths[i]
            == SendRR(cfg.paths[i], p1, f.poll, f.ns, f.nr, f.payload, CanExtract(s, i), at).state
  {
    p1 := NoteBulle(cfg.paths[i], s.paths[i], Extracted(cfg, s, i, f.payload), at);
  }

  lemma SendRRConfirms(c: PathConf, p: PathState, f: Frame, k: nat, handedUp: bool, at: int)
    requires Numbered(p) && WaitingSendable(c, p) && f.INFO? && f.nr == k % 8
    requires p.h.va < k <= |p.h.txs| <= p.h.va + 7
    ensures Confirmed(p, SendRR(c, p, f.poll, f.ns, f.nr, f.payload, handedUp, at).state, k)
  {
    TakenConfirms(c, p, k, at);
    AcknowledgeConfirms(p, NRAccepted(c, p, k % 8, at), f, k, handedUp, at);
  }

  lemma AcknowledgeConfirms(p: PathState, m: PathState, f: Frame, k: nat, handedUp: bool, at: int)
    requires f.INFO? && Confirmed(p, m, k)
    ensures Confirmed(p, Acknowledge(m, f.poll, f.ns, f.payload, handedUp, at), k)
  {
  }

  // ---------------------------------------------------------------- given

  /** The RRs among some frames. */
  function RRs(ts: seq<Transmission>): seq<Frame> {
    if ts == [] then []
    else RRs(ts[..|ts| - 1]) + (if ts[|ts| - 1].frame.RR? then [ts[|ts| - 1].frame] else [])
  }

  lemma {:induction false} RRsOfSum(a: seq<Transmission>, b: seq<Transmission>)
    ensures RRs(a + b) == RRs(a) + RRs(b)
    decreases |b|
  {
    if b == [] {
      assert a + b == a;
    } else {
      assert (a + b)[..|a + b| - 1] == a + b[..|b| - 1];
      RRsOfSum(a, b[..|b| - 1]);
    }
  }

  lemma {:induction false} NoRRs(ts: seq<Transmission>)
    requires forall t | t in ts :: FirstTransmission(t)
    ensures RRs(ts) == []
    decreases |ts|
  {
    if ts != [] {
      assert ts[|ts| - 1] in ts;
      NoRRs(ts[..|ts| - 1]);
    }
  }

  /** The frames of two steps in a row. */
  lemma RRsOfTwoSteps(p: PathState, m: PathState, q: PathState)
    requires p.h.wire <= m.h.wire && m.h.wire <= q.h.wire
    ensures RRs(NewFrames(p, q)) == RRs(NewFrames(p, m)) + RRs(NewFrames(m, q))
  {
    assert NewFrames(p, q) == NewFrames(p, m) + NewFrames(m, q);
    RRsOfSum(NewFrames(p, m), NewFrames(m, q));
  }

  /** The answer to an information frame: the number expected next, with the bit of the frame, if the frame is the
      expected one or asks for an answer. */
  function AnswerTo(p: PathState, f: Frame): seq<Frame>
    requires f.INFO?
  {
    var n := |p.h.rcv|;
    if !TakesNR(p, f.nr) then []
    else if f.ns == n % 8 then [RR((n + 1) % 8, f.poll)]
    else if f.poll then [RR(n % 8, true)]
    else []
  }

  lemma AckGivesNoRR(c: PathConf, p: PathState, nr: int, at: int)
    requires WaitingSendable(c, p)
    ensures var q := ReceivedRR(c, p, nr, false, at).state;
            p.h.wire <= q.h.wire && RRs(NewFrames(p, q)) == [] && q.nr == p.nr && q.h.rcv == p.h.rcv
  {
    if nr != p.nrr && IsNRValid(p.nrr, p.ns, nr) {
      var m := Pop(p, nr, at);
      RefillSends(c, m, at);
      assert NewFrames(p, Refill(c, m, at)) == NewFrames(m, Refill(c, m, at));
      NoRRs(NewFrames(m, Refill(c, m, at)));
    } else {
      assert NewFrames(p, p) == [];
    }
  }

  lemma SendRRAnswers(c: PathConf, p: PathState, f: Frame, handedUp: bool, at: int)
    requires f.INFO? && WaitingSendable(c, p) && p.nr == |p.h.rcv| % 8
    ensures var q := SendRR(c, p, f.poll, f.ns, f.nr, f.payload, handedUp, at).state;
            p.h.wire <= q.h.wire && RRs(NewFrames(p, q)) == AnswerTo(p, f)
  {
    var o := ReceivedRR(c, p, f.nr, false, at);
    AckGivesNoRR(c, p, f.nr, at);
    if o.ok {
      var m := Acknowledge(o.state, f.poll, f.ns, f.payload, handedUp, at);
      AcknowledgeIs(o.state, p, f, handedUp, at);
      RRsOfTwoSteps(p, o.state, m);
    }
  }

  lemma AcknowledgeIs(m: PathState, p: PathState, f: Frame, handedUp: bool, at: int)
    requires f.INFO? && m.nr == |m.h.rcv| % 8 && m.h.rcv == p.h.rcv && TakesNR(p, f.nr)
    ensures var q := Acknowledge(m, f.poll, f.ns, f.payload, handedUp, at);
            m.h.wire <= q.h.wire && RRs(NewFrames(m, q)) == AnswerTo(p, f)
  {
    var q := Acknowledge(m, f.poll, f.ns, f.payload, handedUp, at);
    if f.ns == m.nr {
      NextNumber(|m.h.rcv|);
      OneNewFrame(m, q, Tx(RR((m.nr + 1) % 8, f.poll), m.proto, 0, |m.h.rcv| + 1));
    } else if f.poll {
      OneNewFrame(m, q, Tx(RR(m.nr, true), m.proto, 0, |m.h.rcv|));
    } else {
      assert NewFrames(m, q) == [];
    }
  }

  lemma NextNumber(n: nat)
    ensures (n % 8 + 1) % 8 == (n + 1) % 8
  {
  }

  lemma OneNewFrame(p: PathState, q: PathState, t: Transmission)
    requires q.h.wire == p.h.wire + [t]
    ensures RRs(NewFrames(p, q)) == if t.frame.RR? then [t.frame] else []
  {
    assert NewFrames(p, q) == [t];
    RRsOfOne(t);
  }

  lemma RRsOfOne(t: Transmission)
    ensures RRs([t]) == if t.frame.RR? then [t.frame] else []
  {
    assert [t][..0] == [];
  }

  /** Main result. In every run an information frame received with the input open is answered with exactly that. */
  lemma InfoIsAnswered(cfg: SysConf, current: nat, now: int, evs: seq<Event>, i: nat, f: Frame, at: int)
    requires i < |cfg.paths| && !Reached(cfg, current, now, evs).crashed && f.INFO? && Expressible(cfg.paths[i], f)
    ensures var s := Reached(cfg, current, now, evs);
            var r := Step(cfg, s, Receive(i, f, at));
            && i < |s.paths| && i < |r.paths| && s.paths[i].h.wire <= r.paths[i].h.wire
            && RRs(NewFrames(s.paths[i], r.paths[i])) == if InputOpen(s.paths[i]) then AnswerTo(s.paths[i], f) else []
  {
    var s := Reached(cfg, current, now, evs);
    assert Ready(cfg, s) && i < |s.paths| && s.paths[i].nr == |s.paths[i].h.rcv| % 8 by {
      RunKeepsInv(cfg, current, now, evs);
      InvIsReady(cfg, s);
      assert LinkInv(cfg.paths[i], s.paths[i]);
    }
    var p := s.paths[i];
    if p.proto == Connection {
      assert NewFrames(p, p) == [];
    } else {
      var (s1, ms) := AnswerInfo(cfg, s, i, f, at);
      AnswerInfoAnswers(cfg, s, i, f, at);
      MessagesSend(cfg, s1, ms, at);
      var r := HandleMessages(cfg, s1, ms, at);
      InfoStep(cfg, s, i, f, at);
      NoRRs(NewFrames(s1.paths[i], r.paths[i]));
      RRsOfTwoSteps(p, s1.paths[i], r.paths[i]);
    }
  }

  lemma AnswerInfoAnswers(cfg: SysConf, s: Sys, i: nat, f: Frame, at: int)
    requires Ready(cfg, s) && i < |s.paths| && f.INFO? && Expressible(cfg.paths[i], f)
    requires s.paths[i].nr == |s.paths[i].h.rcv| % 8 && s.paths[i].proto != Connection
    ensures var p, q := s.paths[i], AnswerInfo(cfg, s, i, f, at).0.paths[i];
            p.h.wire <= q.h.wire && RRs(NewFrames(p, q)) == if InputOpen(p) then AnswerTo(p, f) else []
  {
    var p := s.paths[i];
    if p.proto == OutputConnected {
      assert NewFrames(p, p) == [];
    } else {
      var p1 := AnswerPath(cfg, s, i, f, at);
      SendRRAnswers(cfg.paths[i], p1, f, CanExtract(s, i), at);
      BulleKeepsAnswer(p, p1, AnswerInfo(cfg, s, i, f, at).0.paths[i], f);
    }
  }

  lemma BulleKeepsAnswer(p: PathState, p1: PathState, q: PathState, f: Frame)
    requires f.INFO? && p1 == p.(lastMsg := p1.lastMsg) && p1.h.wire <= q.h.wire
    ensures NewFrames(p, q) == NewFrames(p1, q) && AnswerTo(p, f) == AnswerTo(p1, f)
  {
  }


  // ---------------------------------------------------------------- a repeated message that is acknowledged

  /** A GI request whose frame is lost goes out again after the timeout; the peer answers the repetition. */
  function LostFrame(cfg: SysConf, i: nat): seq<Event>
    requires i < |cfg.paths|
  {
    var t := OpeningTime(cfg, i);
    var late := t + cfg.repeatTimeout + 1;
    OpeningEvents(cfg, i) + [GiRequest(t)] + [Repeat(i, late, late)] + [Receive(i, RR(1, true), late)]
  }

  predicate InFlight(s: Sys, i: nat, at: int, repeats: nat) {
    && !s.crashed && i < |s.paths| && s.paths[i].proto == Connected && s.paths[i].tcp
    && s.paths[i].sent == [Message(0, GI_REQUEST)] && s.paths[i].waiting == [] && s.paths[i].lastSent == at
    && s.paths[i].h.va == 0 && |s.paths[i].h.txs| == 1 && s.paths[i].repeat == repeats
    && s.paths[i].h.acknowledged == []
  }

  lemma FirstInFlight(cfg: SysConf, i: nat)
    requires i < |cfg.paths| && cfg.paths[i].ratio >= 1
    ensures InFlight(Reached(cfg, 0, 0, OpeningEvents(cfg, i) + [GiRequest(OpeningTime(cfg, i))]), i,
                     OpeningTime(cfg, i), 0)
  {
    var t := OpeningTime(cfg, i);
    var s := Opened(cfg, i);
    ReachedIsReady(cfg, OpeningEvents(cfg, i));
    GiGoesOut(cfg, s, i, t, t);
    RunThen(cfg, OpeningEvents(cfg, i), GiRequest(t));
  }

  lemma ResentInFlight(cfg: SysConf, s: Sys, i: nat, at: int, late: nat)
    requires Ready(cfg, s) && InFlight(s, i, at, 0) && cfg.paths[i].repeatMax >= 1 && at + cfg.repeatTimeout < late
    ensures InFlight(Step(cfg, s, Repeat(i, late, late)), i, late, 1)
  {
    assert Payloads([]) == [];
  }

  /** In every configuration that allows one repetition, on every path: the message is acknowledged by the RR with
      the final bit that answers its repetition. */
  lemma RepetitionIsAcknowledged(cfg: SysConf, i: nat)
    requires i < |cfg.paths| && cfg.paths[i].ratio >= 1 && cfg.paths[i].repeatMax >= 1
    ensures var s := Reached(cfg, 0, 0, LostFrame(cfg, i));
            && i < |s.paths| && s.paths[i].proto == Connected
            && s.paths[i].h.acknowledged == [GI_REQUEST] && s.paths[i].repeat == 0 && s.paths[i].h.va == 1
  {
    var t := OpeningTime(cfg, i);
    var late := t + cfg.repeatTimeout + 1;
    var evs := OpeningEvents(cfg, i) + [GiRequest(t)];
    FirstInFlight(cfg, i);
    ReachedIsReady(cfg, evs);
    ResentInFlight(cfg, Reached(cfg, 0, 0, evs), i, t, late);
    RunThen(cfg, evs, Repeat(i, late, late));
    AnsweredRepetition(cfg, evs + [Repeat(i, late, late)], i, late);
    RunThen(cfg, evs + [Repeat(i, late, late)], Receive(i, RR(1, true), late));
  }

  lemma AnsweredRepetition(cfg: SysConf, evs: seq<Event>, i: nat, late: nat)
    requires i < |cfg.paths| && InFlight(Reached(cfg, 0, 0, evs), i, late, 1)
    ensures var r := Step(cfg, Reached(cfg, 0, 0, evs), Receive(i, RR(1, true), late));
            && i < |r.paths| && r.paths[i].proto == Connected
            && r.paths[i].h.acknowledged == [GI_REQUEST] && r.paths[i].repeat == 0 && r.paths[i].h.va == 1
  {
    var s := Reached(cfg, 0, 0, evs);
    PersistenceIsBounded(cfg, 0, 0, evs, i);
    AckTakenIff(cfg, 0, 0, evs, i, 1, true, late);
    assert Payloads(s.paths[i].sent[..1]) == [GI_REQUEST];
    ReachedIsReady(cfg, evs);
    RRKeepsProtocol(cfg, s, i, 1, true, late);
  }

  lemma RRKeepsProtocol(cfg: SysConf, s: Sys, i: nat, nr: int, final: bool, at: int)
    requires Ready(cfg, s) && !s.crashed && i < |s.paths| && 0 <= nr < 8
    ensures Step(cfg, s, Receive(i, RR(nr, final), at)).paths[i].proto == s.paths[i].proto
  {
    RRStep(cfg, s, i, nr, final, at);
    ReceivedRRKeepsStates(cfg.paths[i], s.paths[i], nr, final, at);
  }

}
