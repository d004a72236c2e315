/** What reaches the application, against what the link layer receives in sequence. */
module Deliveries {
  import opened HnzTypes
  import opened Modulo8
  import opened Link
  import opened LinkInvariants
  import opened HnzSystem
  import opened Arbitration
  import opened SystemInvariants
  import opened Theorems
  import opened Scenarios
  import Messages

  // ---------------------------------------------------------------- one frame

  /** The NR of the frame is accepted. */
  predicate NROk(p: PathState, f: Frame)
    requires f.INFO?
  {
    f.nr == p.nrr || IsNRValid(p.nrr, p.ns, f.nr)
  }

  lemma {:induction false} RefillKeepsReception(c: PathConf, p: PathState, now: int)
    requires WaitingSendable(c, p)
    ensures var r := Refill(c, p, now);
            && r.nr == p.nr && r.h.rcv == p.h.rcv && r.h.up == p.h.up
            && r.h.duplicates == p.h.duplicates && r.h.missed == p.h.missed
    decreases |p.waiting|
  {
    if p.waiting != [] && |p.sent| < c.ratio {
      RefillKeepsReception(c, RefillOnce(c, p, now), now);
    }
  }

  lemma SendRRNotesFrame(c: PathConf, p: PathState, f: Frame, handedUp: bool, now: int)
    requires f.INFO? && WaitingSendable(c, p)
    ensures var o := SendRR(c, p, f.poll, f.ns, f.nr, f.payload, handedUp, now);
            && o.ok == NROk(p, f)
            && var h := if NROk(p, f) then NoteFrame(p.h, f.ns == p.nr, handedUp, f.payload) else p.h;
               && o.state.h.rcv == h.rcv && o.state.h.up == h.up
               && o.state.h.duplicates == h.duplicates && o.state.h.missed == h.missed
  {
    RefillKeepsReception(c, Pop(p, f.nr, now), now);
  }

  /** In every run: the messages of a frame are handed up exactly when the history says so, and a frame that
      is handed up is a new one in sequence if and only if its NS is the expected one. Otherwise it is a
      duplicate, and its messages are handed up all the same. */
  lemma HandedUpFrame(cfg: SysConf, current: nat, now: int, evs: seq<Event>, i: nat, f: Frame, at: int)
    requires i < |cfg.paths| && f.INFO? && Expressible(cfg.paths[i], f)
    ensures var s := Reached(cfg, current, now, evs);
            && Ready(cfg, s) && i < |s.paths|
            && var (r, ms) := AnswerInfo(cfg, s, i, f, at);
               && i < |r.paths|
               && var p, q := s.paths[i], r.paths[i];
                  && (ms != [] <==> CanExtract(s, i) && NROk(p, f))
                  && (ms != [] ==> ms == Messages.Extract(cfg.paths[i].bulleReceive, f.payload))
                  && q.h.up == p.h.up + (if ms != [] then [f.payload] else [])
                  && (ms != [] ==>
                        && (q.h.rcv == p.h.rcv + [f.payload] <==> f.ns == p.nr)
                        && (q.h.duplicates == p.h.duplicates + 1 <==> f.ns != p.nr))
  {
    HandedUpIff(cfg, current, now, evs, i, f, at);
    ExclusiveDelivery(cfg, current, now, evs, i, i);
    var s := Reached(cfg, current, now, evs);
    var p1 := NoteBulle(cfg.paths[i], s.paths[i], Extracted(cfg, s, i, f.payload), at);
    SendRRNotesFrame(cfg.paths[i], p1, f, CanExtract(s, i), at);
  }

  // ---------------------------------------------------------------- whole runs

  /** The messages in a payload. */
  function Split(bulle: (Byte, Byte), p: Payload): (ms: seq<Payload>)
    ensures ms != []
  {
    if Messages.Uncut(bulle, p) then Messages.Extract(bulle, p) else [p]
  }

  function AllMessages(bulle: (Byte, Byte), ps: seq<Payload>): seq<Payload> {
    if ps == [] then [] else AllMessages(bulle, ps[..|ps| - 1]) + Split(bulle, ps[|ps| - 1])
  }

  lemma {:induction false} AllMessagesWithout(bulle: (Byte, Byte), ps: seq<Payload>, j: nat)
    requires j < |ps|
    ensures |AllMessages(bulle, ps)|
            == |AllMessages(bulle, ps[..j] + ps[j + 1..])| + |Split(bulle, ps[j])|
    decreases |ps|
  {
    var init, last := ps[..|ps| - 1], ps[|ps| - 1];
    if j == |init| {
      assert ps[..j] + ps[j + 1..] == init;
    } else {
      AllMessagesWithout(bulle, init, j);
      WithoutThenLast(ps, j);
      OneMorePayload(bulle, init[..j] + init[j + 1..], last);
    }
  }

  lemma WithoutThenLast(ps: seq<Payload>, j: nat)
    requires j < |ps| - 1
    ensures var init := ps[..|ps| - 1];
            init[j] == ps[j] && ps[..j] + ps[j + 1..] == (init[..j] + init[j + 1..]) + [ps[|ps| - 1]]
  {
  }

  lemma OneMorePayload(bulle: (Byte, Byte), ps: seq<Payload>, p: Payload)
    ensures |AllMessages(bulle, ps + [p])| == |AllMessages(bulle, ps)| + |Split(bulle, p)|
  {
    assert (ps + [p])[..|ps|] == ps;
  }

  /** Every further payload brings at least one more message. */
  lemma {:induction false} MorePayloadsMoreMessages(bulle: (Byte, Byte), a: seq<Payload>, b: seq<Payload>)
    requires multiset(a) <= multiset(b)
    ensures |AllMessages(bulle, b)| >= |AllMessages(bulle, a)| + (|b| - |a|)
    decreases |a| + |b|
  {
    if a != [] {
      var j := WithoutLast(a, b);
      AllMessagesWithout(bulle, b, j);
      MorePayloadsMoreMessages(bulle, a[..|a| - 1], b[..j] + b[j + 1..]);
    } else if b != [] {
      assert multiset(a) <= multiset(b[..|b| - 1]);
      MorePayloadsMoreMessages(bulle, a, b[..|b| - 1]);
    }
  }

  /** A place in b for the last element of a, such that the rest of a is in the rest of b. */
  lemma WithoutLast(a: seq<Payload>, b: seq<Payload>) returns (j: nat)
    requires a != [] && multiset(a) <= multiset(b)
    ensures j < |b| && b[j] == a[|a| - 1]
    ensures multiset(a[..|a| - 1]) <= multiset(b[..j] + b[j + 1..])
  {
    var init, x := a[..|a| - 1], a[|a| - 1];
    assert a == init + [x];
    assert x in multiset(b);
    j :| 0 <= j < |b| && b[j] == x;
    MultisetWithout(b, j);
    CancelOne(multiset(init), multiset(b[..j] + b[j + 1..]), x);
  }

  lemma CancelOne(a: multiset<Payload>, b: multiset<Payload>, x: Payload)
    requires a + multiset{x} <= b + multiset{x}
    ensures a <= b
  {
    forall y ensures a[y] <= b[y] {
      assert (a + multiset{x})[y] <= (b + multiset{x})[y];
    }
  }

  lemma MultisetWithout(b: seq<Payload>, j: nat)
    requires j < |b|
    ensures multiset(b) == multiset(b[..j] + b[j + 1..]) + multiset{b[j]}
  {
    assert b == b[..j] + [b[j]] + b[j + 1..];
  }

  /** Main result. In every run, on a path that handed up every frame it received in sequence, the application
      has got exactly the messages received in sequence, each once and in order, if and only if every frame
      handed up had the expected NS. In any case it has got all of them. */
  lemma OnceIff(cfg: SysConf, current: nat, now: int, evs: seq<Event>, i: nat)
    requires i < |cfg.paths|
    ensures var s := Reached(cfg, current, now, evs);
            && i < |s.paths|
            && var h, bulle := s.paths[i].h, cfg.paths[i].bulleReceive;
               && |h.up| + h.missed == |h.rcv| + h.duplicates
               && (h.missed == 0 ==>
                     && multiset(h.rcv) <= multiset(h.up)
                     && (AllMessages(bulle, h.up) == AllMessages(bulle, h.rcv) <==> h.duplicates == 0))
  {
    ReachedLink(cfg, current, now, evs, i);
    var h := Reached(cfg, current, now, evs).paths[i].h;
    if h.missed == 0 {
      MorePayloadsMoreMessages(cfg.paths[i].bulleReceive, h.rcv, h.up);
    }
  }

  // ---------------------------------------------------------------- a duplicate

  const MODULO: Payload := [0x0f, 0]

  lemma ModuloIsWhole(bulle: (Byte, Byte))
    ensures Messages.Uncut(bulle, MODULO) && Messages.Extract(bulle, MODULO) == [MODULO] && WholeMessage(MODULO)
  {
  }

  /** Path i delivers; it has handed up and received these payloads. */
  predicate Delivering(s: Sys, i: nat, nr: int, up: seq<Payload>, rcv: seq<Payload>) {
    && !s.crashed && s.active == Some(i) && i < |s.paths|
    && s.paths[i].proto == Connected && s.paths[i].nrr == 0 && s.paths[i].nr == nr
    && s.paths[i].h.up == up && s.paths[i].h.rcv == rcv && s.paths[i].h.missed == 0
  }

  lemma ModuloArrives(cfg: SysConf, s: Sys, i: nat, nr: int, up: seq<Payload>, rcv: seq<Payload>, at: int)
    requires Ready(cfg, s) && Delivering(s, i, nr, up, rcv)
    ensures var r := Step(cfg, s, Receive(i, INFO(0, 0, true, MODULO), at));
            if nr == 0 then Delivering(r, i, 1, up + [MODULO], rcv + [MODULO])
            else Delivering(r, i, nr, up + [MODULO], rcv)
  {
    var f := INFO(0, 0, true, MODULO);
    ModuloIsAnswered(cfg, s, i, nr, up, rcv, at);
    var s1 := AnswerInfo(cfg, s, i, f, at).0;
    ModuloIsHandled(cfg, s1, at);
    TscgStep(cfg, s, i, f, at, s1, MODULO);
  }

  lemma ModuloIsAnswered(cfg: SysConf, s: Sys, i: nat, nr: int, up: seq<Payload>, rcv: seq<Payload>, at: int)
    requires WellSized(cfg, s) && Delivering(s, i, nr, up, rcv) && WaitingSendable(cfg.paths[i], s.paths[i])
    ensures Expressible(cfg.paths[i], INFO(0, 0, true, MODULO))
    ensures var (s1, ms) := AnswerInfo(cfg, s, i, INFO(0, 0, true, MODULO), at);
            && ms == [MODULO] && WholeMessage(MODULO)
            && (if nr == 0 then Delivering(s1, i, 1, up + [MODULO], rcv + [MODULO])
                else Delivering(s1, i, nr, up + [MODULO], rcv))
  {
    ModuloIsWhole(cfg.paths[i].bulleReceive);
  }

  lemma ModuloIsHandled(cfg: SysConf, s: Sys, at: int)
    requires WellSized(cfg, s) && !s.crashed
    ensures WholeMessage(MODULO) && HandleMessages(cfg, s, [MODULO], at) == s.(fledge := s.fledge.(daySection := 0))
  {
    assert [MODULO][1..] == [];
    assert HandleMessage(cfg, s, MODULO, at) == s.(fledge := s.fledge.(daySection := 0));
  }

  /** The law "each message once" fails in every configuration, on every path: a frame repeated by the peer,
      with the poll bit, is handed up twice and received in sequence once. */
  lemma RepeatedFrameIsHandedUpTwice(cfg: SysConf, i: nat)
    requires i < |cfg.paths|
    ensures var f := Receive(i, INFO(0, 0, true, MODULO), OpeningTime(cfg, i));
            var s := Reached(cfg, 0, 0, OpeningEvents(cfg, i) + [f] + [f]);
            && i < |s.paths| && s.paths[i].h.missed == 0
            && s.paths[i].h.up == [MODULO, MODULO] && s.paths[i].h.rcv == [MODULO] && s.paths[i].h.duplicates == 1
  {
    var f := Receive(i, INFO(0, 0, true, MODULO), OpeningTime(cfg, i));
    var evs := OpeningEvents(cfg, i);
    var s0 := Opened(cfg, i);
    RunThen(cfg, evs, f);
    ReachedIsReady(cfg, evs);
    ModuloArrives(cfg, s0, i, 0, [], [], f.now);
    RunThen(cfg, evs + [f], f);
    ReachedIsReady(cfg, evs + [f]);
    ModuloArrives(cfg, Reached(cfg, 0, 0, evs + [f]), i, 1, [MODULO], [MODULO], f.now);
    OnceIff(cfg, 0, 0, evs + [f] + [f], i);
  }

  // ---------------------------------------------------------------- a SARM that comes too early

  lemma {:induction false} ResetInputForgets(acts: seq<Act>, p: PathState, now: int)
    requires ResetInput in acts || ResolveConnection in acts || (p.nr == 0 && p.h.rcv == [])
    ensures LinkActs(acts, p, now).nr == 0 && LinkActs(acts, p, now).h.rcv == []
    decreases |acts|
  {
    if acts != [] {
      assert acts == [acts[0]] + acts[1..];
      ResetInputForgets(acts[1..], LinkAct(acts[0], p, now), now);
    }
  }

  lemma SarmResetsInput(s: Sys, i: nat, now: int)
    requires i < |s.paths|
    ensures var r := ProtocolTransition(s, i, ReceivedSarm, now);
            i < |r.paths| && r.paths[i].nr == 0 && r.paths[i].h.rcv == []
  {
    var row := Row(s.paths[i].proto, ReceivedSarm);
    TransitionIs(s, i, ReceivedSarm, now);
    assert ResetInput in row.value.actions by {
      assert row.value.actions[0] == ResetInput || row.value.actions[1] == ResetInput
             || row.value.actions[3] == ResetInput;
    }
    ResetInputForgets(row.value.actions, s.paths[i].(proto := row.value.next), now);
  }

  /** Why the end-to-end law is about one session. In every run a SARM is answered with a UA, on which the peer
      starts its numbers again; this side does so if and only if the path did not connect too recently. */
  lemma SarmRestartsIff(cfg: SysConf, current: nat, now: int, evs: seq<Event>, i: nat, at: int)
    requires i < |cfg.paths| && !Reached(cfg, current, now, evs).crashed
    requires var s := Reached(cfg, current, now, evs); i < |s.paths| && s.paths[i].h.rcv != []
    ensures var s := Reached(cfg, current, now, evs);
            var r := Step(cfg, s, Receive(i, SARM, at));
            && i < |r.paths|
            && (r.paths[i].h.rcv == [] <==> at - s.paths[i].lastConnected > cfg.paths[i].repeatTimeout)
            && (at - s.paths[i].lastConnected <= cfg.paths[i].repeatTimeout ==>
                  r.paths[i].nr == s.paths[i].nr && r.paths[i].h.rcv == s.paths[i].h.rcv
                  && |r.paths[i].h.wire| == |s.paths[i].h.wire| + 1 && r.paths[i].h.wire[|s.paths[i].h.wire|].frame == UA)
  {
    RunKeepsInv(cfg, current, now, evs);
    var s := Reached(cfg, current, now, evs);
    if at - s.paths[i].lastConnected > cfg.paths[i].repeatTimeout {
      SarmStep(cfg, s, i, at);
      SarmResetsInput(SetPath(s, i, SendUA(s.paths[i], at)), i, at);
    } else {
      InvIsReady(cfg, s);
      EarlySarm(cfg, s, i, at);
    }
  }

  lemma EarlySarm(cfg: SysConf, s: Sys, i: nat, at: int)
    requires Ready(cfg, s) && !s.crashed && i < |s.paths|
    requires at - s.paths[i].lastConnected <= cfg.paths[i].repeatTimeout
    ensures Step(cfg, s, Receive(i, SARM, at)) == SetPath(s, i, SendUA(s.paths[i], at))
  {
    assert FrameReceived(cfg, s, i, SARM, at) == ReceivedSarmFrame(cfg, s, i, at);
  }
}
