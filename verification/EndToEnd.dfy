/** Two stations that both run the link layer, over two FIFO links that may lose frames, within one
    session (both CONNECTED). What one side counts as acknowledged, the other has accepted. */
module EndToEnd {
  import opened HnzTypes
  import opened Modulo8
  import opened Link
  import opened LinkInvariants

  /** A station: its configuration, its state, and the link that carries its frames to the other. */
  datatype Station = Station(conf: PathConf, state: PathState, link: seq<Transmission>)

  datatype Net = Net(left: Station, right: Station)

  function Swap(n: Net): Net {
    Net(n.right, n.left)
  }

  datatype Action =
    | Submit(p: Payload)      // the application sends a message
    | Timeout                 // the oldest message in flight was not acknowledged in time
    | Deliver(handedUp: bool) // the first frame on the other side's link arrives; the application takes it or not
    | Lose(i: nat)            // a frame on the own link is lost

  datatype Event = OnLeft(a: Action, now: int) | OnRight(a: Action, now: int)

  function Emitted(x: PathState, x': PathState): seq<Transmission> {
    if |x.h.wire| <= |x'.h.wire| then x'.h.wire[|x.h.wire|..] else []
  }

  predicate Up(n: Net) {
    n.left.state.proto == Connected && n.right.state.proto == Connected
  }

  /** What a station does with a frame; SARM and UA do not occur within a session. */
  function Receive(c: PathConf, x: PathState, f: Frame, handedUp: bool, now: int): PathState
    requires x.proto == Connected
  {
    match f
    case INFO(ns, nr, poll, p) => SendRR(c, x, poll, ns, nr, p, handedUp, now).state
    case RR(nr, final) => ReceivedRR(c, x, nr, final, now).state
    case _ => x
  }

  function React(c: PathConf, x: PathState, a: Action, link: seq<Transmission>, now: int): PathState
    requires x.proto == Connected
  {
    match a
    case Submit(p) => SendInfo(c, x, p, now).state
    case Timeout => if x.sent != [] && x.repeat < c.repeatMax then Requeue(SendBackInfo(x, now)) else x
    case Deliver(handedUp) => if link != [] then Receive(c, x, link[0].frame, handedUp, now) else x
    case Lose(_) => x
  }

  /** One step of the left station; without a session nothing happens. */
  function StepLeft(n: Net, a: Action, now: int): Net {
    if Up(n) then StepLeftUp(n, a, now) else n
  }

  function StepLeftUp(n: Net, a: Action, now: int): Net
    requires Up(n)
  {
    var x, y := n.left, n.right;
    var x' := React(x.conf, x.state, a, y.link, now);
    var own := if a.Lose? && a.i < |x.link| then x.link[..a.i] + x.link[a.i + 1..] else x.link;
    Net(x.(state := x', link := own + Emitted(x.state, x')),
        if a.Deliver? && y.link != [] then y.(link := y.link[1..]) else y)
  }

  lemma ReceivedRRKeepsProto(c: PathConf, x: PathState, nr: int, rep: bool, now: int)
    requires x.proto == Connected
    ensures ReceivedRR(c, x, nr, rep, now).state.proto == Connected
  {
    RefillKeepsInput(c, Pop(x, nr, now), now);
  }

  // ---------------------------------------------------------------- the invariant of one direction

  /** The acknowledgement number a frame carries. */
  function AckOf(f: Frame): int {
    match f
    case INFO(_, nr, _, _) => nr
    case RR(nr, _) => nr
    case _ => 0
  }

  predicate SessionFrame(t: Transmission) {
    t.frame.INFO? || t.frame.RR?
  }

  /** Frame `t` of x carries message number idx of x; y already accepted the messages before it, and
      perhaps this one. */
  predicate GoodInfo(x: PathState, y: PathState, t: Transmission) {
    t.frame.INFO? ==>
      && |y.h.rcv| - 1 <= t.idx < |x.h.txs|
      && t.frame.payload == x.h.txs[t.idx]
      && t.frame.ns == t.idx % 8
  }

  predicate InfoOrder(xy: seq<Transmission>) {
    forall i, j | 0 <= i < j < |xy| && xy[i].frame.INFO? && xy[j].frame.INFO? :: xy[i].idx <= xy[j].idx
  }

  predicate AckOrder(yx: seq<Transmission>) {
    forall i, j | 0 <= i < j < |yx| :: yx[i].ack <= yx[j].ack
  }

  predicate Forward(x: PathState, y: PathState, xy: seq<Transmission>) {
    (forall t | t in xy :: GoodInfo(x, y, t)) && InfoOrder(xy)
  }

  /** Every frame of y acknowledges a number of messages it did accept and not less than x knows. */
  predicate GoodAck(x: PathState, y: PathState, t: Transmission) {
    SessionFrame(t) && AckOf(t.frame) == t.ack % 8 && x.h.va <= t.ack <= |y.h.rcv|
  }

  predicate Backward(x: PathState, y: PathState, yx: seq<Transmission>) {
    (forall t | t in yx :: GoodAck(x, y, t)) && AckOrder(yx)
  }

  /** Messages of x towards y, as long as no timeout of x put two or more of them back to waiting. */
  predicate Direction(x: PathState, y: PathState, xy: seq<Transmission>, yx: seq<Transmission>) {
    !x.h.multi ==>
      && x.h.va <= |y.h.rcv| <= |x.h.txs|
      && y.h.rcv == x.h.txs[..|y.h.rcv|]
      && Forward(x, y, xy)
      && Backward(x, y, yx)
  }

  predicate GoodStation(s: Station) {
    LinkInv(s.conf, s.state) && s.state.proto == Connected && s.conf.ratio <= 8
    && (forall t | t in s.link :: SessionFrame(t) && 0 <= AckOf(t.frame) < 8)
  }

  predicate NetInv(n: Net) {
    && GoodStation(n.left) && GoodStation(n.right)
    && Direction(n.left.state, n.right.state, n.left.link, n.right.link)
    && Direction(n.right.state, n.left.state, n.right.link, n.left.link)
  }

  // ---------------------------------------------------------------- one step at a time

  lemma AppendForward(x: PathState, y: PathState, xy: seq<Transmission>, t: Transmission)
    requires Forward(x, y, xy) && GoodInfo(x, y, t)
    requires t.frame.INFO? ==> forall u | u in xy && u.frame.INFO? :: u.idx <= t.idx
    ensures Forward(x, y, xy + [t])
  {
    var all := xy + [t];
    assert forall u | u in all :: u in xy || u == t;
    forall i, j | 0 <= i < j < |all| && all[i].frame.INFO? && all[j].frame.INFO?
      ensures all[i].idx <= all[j].idx
    {
      assert all[i] == xy[i] && xy[i] in xy;
    }
  }

  lemma AppendBackward(x: PathState, y: PathState, yx: seq<Transmission>, t: Transmission)
    requires Backward(x, y, yx) && GoodAck(x, y, t) && t.ack == |y.h.rcv|
    ensures Backward(x, y, yx + [t])
  {
    var all := yx + [t];
    assert forall u | u in all :: u in yx || u == t;
    forall i, j | 0 <= i < j < |all| ensures all[i].ack <= all[j].ack {
      assert all[i] == yx[i] && yx[i] in yx;
      assert GoodAck(x, y, yx[i]);
    }
  }

  /** What x sends besides acknowledging: the two roles of x when it puts one INFO frame on its link. */
  lemma SendKeepsDirections(c: PathConf, x: PathState, y: PathState, p: Payload, now: int,
                            xy: seq<Transmission>, yx: seq<Transmission>)
    requires x.proto == Connected && Numbered(x)
    requires Direction(x, y, xy, yx) && Direction(y, x, yx, xy)
    ensures var x' := SendInfoImmediately(c, x, p, now).state;
            var xy' := xy + Emitted(x, x');
            Direction(x', y, xy', yx) && Direction(y, x', yx, xy')
    ensures var e := Emitted(x, SendInfoImmediately(c, x, p, now).state);
            |e| == 1 && SessionFrame(e[0]) && AckOf(e[0].frame) == x.nr
  {
    var x' := SendInfoImmediately(c, x, p, now).state;
    var t := x'.h.wire[|x.h.wire|];
    assert Emitted(x, x') == [t];
    if !x.h.multi {
      assert forall i | 0 <= i < |x.h.txs| :: x'.h.txs[i] == x.h.txs[i];
      assert y.h.rcv == x'.h.txs[..|y.h.rcv|];
      assert forall u | u in xy :: GoodInfo(x, y, u) && GoodInfo(x', y, u);
      AppendForward(x', y, xy, t);
      assert forall u | u in yx :: GoodAck(x, y, u) && GoodAck(x', y, u);
    }
    if !y.h.multi {
      assert forall u | u in xy :: GoodAck(y, x, u) && GoodAck(y, x', u);
      assert forall u | u in yx :: GoodInfo(y, x, u) && GoodInfo(y, x', u);
      AppendBackward(y, x', xy, t);
    }
  }

  /** The refill loop emits frames that only extend the link and leaves the input side alone. */
  lemma {:induction false} RefillKeepsInput(c: PathConf, x: PathState, now: int)
    requires x.proto == Connected
    ensures var r := Refill(c, x, now);
            && r.proto == Connected && r.nr == x.nr && r.h.rcv == x.h.rcv && r.h.multi == x.h.multi
            && r.h.missed == x.h.missed
            && |x.h.wire| <= |r.h.wire| && r.h.wire[..|x.h.wire|] == x.h.wire
    decreases |x.waiting|
  {
    if x.waiting != [] && |x.sent| < c.ratio {
      var x1 := RefillOnce(c, x, now);
      RefillKeepsInput(c, x1, now);
      var r := Refill(c, x, now);
      assert r.h.wire[..|x.h.wire|] == x1.h.wire[..|x.h.wire|];
    }
  }

  lemma EmittedComposes(x: PathState, x1: PathState, x2: PathState, xy: seq<Transmission>)
    requires |x.h.wire| <= |x1.h.wire| <= |x2.h.wire|
    requires x1.h.wire[..|x.h.wire|] == x.h.wire && x2.h.wire[..|x1.h.wire|] == x1.h.wire
    ensures Emitted(x, x2) == Emitted(x, x1) + Emitted(x1, x2)
    ensures xy + Emitted(x, x2) == (xy + Emitted(x, x1)) + Emitted(x1, x2)
  {
  }

  lemma {:induction false} RefillKeepsDirections(c: PathConf, x: PathState, y: PathState, now: int,
                                                 xy: seq<Transmission>, yx: seq<Transmission>)
    requires x.proto == Connected && RefillInv(c, x)
    requires Direction(x, y, xy, yx) && Direction(y, x, yx, xy)
    ensures var x' := Refill(c, x, now);
            var xy' := xy + Emitted(x, x');
            Direction(x', y, xy', yx) && Direction(y, x', yx, xy')
    ensures forall t | t in Emitted(x, Refill(c, x, now)) :: SessionFrame(t) && AckOf(t.frame) == x.nr
    decreases |x.waiting|
  {
    if x.waiting != [] && |x.sent| < c.ratio {
      var x1 := RefillOnce(c, x, now);
      var x1' := SendInfoImmediately(c, x, x.waiting[0], now).state;
      SendKeepsDirections(c, x, y, x.waiting[0], now, xy, yx);
      RefillOnceKeepsInv(c, x, now);
      var e := Emitted(x, x1');
      assert e == Emitted(x, x1);
      DirectionIgnoresQueues(x1', x1, y, xy + e, yx);
      RefillKeepsDirections(c, x1, y, now, xy + e, yx);
      RefillKeepsInput(c, x1, now);
      EmittedComposes(x, x1, Refill(c, x1, now), xy);
    } else {
      assert Emitted(x, x) == [];
      assert xy + [] == xy;
    }
  }

  lemma DirectionIgnoresQueues(x: PathState, x': PathState, y: PathState,
                               xy: seq<Transmission>, yx: seq<Transmission>)
    requires Direction(x, y, xy, yx) && Direction(y, x, yx, xy)
    requires x'.h.txs == x.h.txs && x'.h.va == x.h.va && x'.h.rcv == x.h.rcv && x'.h.multi == x.h.multi
    ensures Direction(x', y, xy, yx) && Direction(y, x', yx, xy)
  {
    assert forall t | t in xy :: GoodInfo(x, y, t) == GoodInfo(x', y, t) && GoodAck(y, x, t) == GoodAck(y, x', t);
    assert forall t | t in yx :: GoodInfo(y, x, t) == GoodInfo(y, x', t) && GoodAck(x, y, t) == GoodAck(x', y, t);
  }

  /** A frame leaves a link, by delivery or by loss. */
  lemma RemoveKeepsDirections(x: PathState, y: PathState, xy: seq<Transmission>, yx: seq<Transmission>, i: nat)
    requires i < |xy|
    requires Direction(x, y, xy, yx) && Direction(y, x, yx, xy)
    ensures var xy' := xy[..i] + xy[i + 1..]; Direction(x, y, xy', yx) && Direction(y, x, yx, xy')
  {
    var xy' := xy[..i] + xy[i + 1..];
    assert forall t | t in xy' :: t in xy;
    assert forall j | 0 <= j < |xy'| :: xy'[j] == xy[if j < i then j else j + 1];
  }

  /** The acknowledgement carried by the first frame `t` of y's link is taken: VA becomes exactly the
      number of messages y had accepted when it sent the frame. Up to seven messages in flight, it is
      never taken for an invalid one. */
  lemma AckMovesVA(c: PathConf, x: PathState, y: PathState, t: Transmission, now: int)
    requires LinkInv(c, x) && x.proto == Connected && c.ratio <= 8 && !x.h.multi
    requires |y.h.rcv| <= |x.h.txs| && GoodAck(x, y, t)
    ensures AckOf(t.frame) != x.nrr ==> Pop(x, AckOf(t.frame), now).h.va == t.ack
    ensures c.ratio <= 7 ==> IsNRValid(x.nrr, x.ns, AckOf(t.frame))
  {
    if AckOf(t.frame) != x.nrr {
      assert x.h.va < t.ack < x.h.va + 8;
      DenotedIsValid(x.h.va, t.ack, t.ack);
    }
    if c.ratio <= 7 {
      DenotedIsValid(x.h.va, |x.h.txs|, t.ack);
    }
  }

  /** m_receivedRR on the number carried by the frame that was first on y's link; `yx` is the rest. */
  lemma AckKeepsDirections(c: PathConf, x: PathState, y: PathState, t: Transmission, rep: bool, now: int,
                           xy: seq<Transmission>, yx: seq<Transmission>)
    requires LinkInv(c, x) && x.proto == Connected && c.ratio <= 8
    requires SessionFrame(t) && 0 <= AckOf(t.frame) < 8
    requires Direction(x, y, xy, [t] + yx) && Direction(y, x, yx, xy)
    ensures var x' := ReceivedRR(c, x, AckOf(t.frame), rep, now).state;
            var xy' := xy + Emitted(x, x');
            Direction(x', y, xy', yx) && Direction(y, x', yx, xy')
    ensures var x' := ReceivedRR(c, x, AckOf(t.frame), rep, now).state;
            && x'.nr == x.nr && x'.h.rcv == x.h.rcv && |x.h.wire| <= |x'.h.wire|
            && x'.h.wire[..|x.h.wire|] == x.h.wire
            && (forall u | u in Emitted(x, x') :: SessionFrame(u) && AckOf(u.frame) == x.nr)
  {
    var nr := AckOf(t.frame);
    TailOfBackward(x, y, t, xy, yx);
    if nr != x.nrr && IsNRValid(x.nrr, x.ns, nr) && (!rep || x.repeat > 0) {
      var x1 := Pop(x, nr, now);
      if !x.h.multi {
        AckMovesVA(c, x, y, t, now);
        assert forall u | u in yx :: GoodAck(x, y, u) && GoodAck(x1, y, u);
        assert forall u | u in xy :: GoodInfo(x, y, u) && GoodInfo(x1, y, u);
      }
      assert Direction(x1, y, xy, yx);
      assert Direction(y, x1, yx, xy) by {
        assert forall u | u in xy :: GoodAck(y, x, u) == GoodAck(y, x1, u);
        assert forall u | u in yx :: GoodInfo(y, x, u) == GoodInfo(y, x1, u);
      }
      PopKeepsInv(c, x, nr, now);
      RefillKeepsDirections(c, x1, y, now, xy, yx);
      RefillKeepsInput(c, x1, now);
      assert Emitted(x, Refill(c, x1, now)) == Emitted(x1, Refill(c, x1, now));
    } else {
      assert Emitted(x, x) == [];
      assert xy + [] == xy;
    }
  }

  /** The frames behind `t` acknowledge at least as much as `t`. */
  lemma TailOfBackward(x: PathState, y: PathState, t: Transmission, xy: seq<Transmission>, yx: seq<Transmission>)
    requires Direction(x, y, xy, [t] + yx)
    ensures Direction(x, y, xy, yx)
    ensures !x.h.multi ==> GoodAck(x, y, t) && forall u | u in yx :: t.ack <= u.ack
  {
    var all := [t] + yx;
    assert all[0] == t && t in all;
    assert forall j | 0 <= j < |yx| :: yx[j] == all[j + 1] && yx[j] in all;
  }

  /** The receive half of an information frame: NS against m_nr, and the RR. `t` was first on y's link. */
  lemma AcceptKeepsDirections(x: PathState, y: PathState, cy: PathConf, t: Transmission, handedUp: bool, now: int,
                              xy: seq<Transmission>, yx: seq<Transmission>)
    requires t.frame.INFO? && Numbered(x) && LinkInv(cy, y) && y.proto == Connected && cy.ratio <= 8
    requires Direction(x, y, xy, yx) && Direction(y, x, [t] + yx, xy)
    ensures var x' := Acknowledge(x, t.frame.poll, t.frame.ns, t.frame.payload, handedUp, now);
            var xy' := xy + Emitted(x, x');
            Direction(x', y, xy', yx) && Direction(y, x', yx, xy')
    ensures var x' := Acknowledge(x, t.frame.poll, t.frame.ns, t.frame.payload, handedUp, now);
            && x'.proto == x.proto && |x.h.wire| <= |x'.h.wire| && x'.h.wire[..|x.h.wire|] == x.h.wire
            && (forall u | u in Emitted(x, x') :: SessionFrame(u) && 0 <= AckOf(u.frame) < 8)
  {
    var x' := Acknowledge(x, t.frame.poll, t.frame.ns, t.frame.payload, handedUp, now);
    var e := Emitted(x, x');
    HeadOfForward(y, x, t, yx, xy);
    AcceptEmits(x, t, handedUp, now);
    if !x.h.multi {
      assert forall u | u in xy :: GoodInfo(x, y, u) && GoodInfo(x', y, u);
      assert forall u | u in yx :: GoodAck(x, y, u) && GoodAck(x', y, u);
      if e != [] {
        AppendForward(x', y, xy, e[0]);
      }
    }
    if !y.h.multi {
      if t.frame.ns == x.nr {
        ExpectedFrameIsNext(t.idx, |x.h.rcv|);
        assert x'.h.rcv == y.h.txs[..|x'.h.rcv|];
      }
      assert forall u | u in yx :: GoodInfo(y, x, u) && GoodInfo(y, x', u);
      assert forall u | u in xy :: GoodAck(y, x, u) && GoodAck(y, x', u);
      if e != [] {
        AppendBackward(y, x', xy, e[0]);
      }
    }
    assert xy + e == if e == [] then xy else xy + [e[0]];
  }

  lemma AcceptEmits(x: PathState, t: Transmission, handedUp: bool, now: int)
    requires t.frame.INFO? && Numbered(x)
    ensures var x' := Acknowledge(x, t.frame.poll, t.frame.ns, t.frame.payload, handedUp, now);
            var e := Emitted(x, x');
            && x'.h == NoteFrame(x.h, t.frame.ns == x.nr, handedUp, t.frame.payload).(wire := x.h.wire + e)
            && x'.proto == x.proto && x'.nr == |x'.h.rcv| % 8
            && |e| <= 1
            && (e != [] ==> e[0].frame.RR? && e[0].ack == |x'.h.rcv| && AckOf(e[0].frame) == e[0].ack % 8)
  {
  }

  /** Numbers that agree modulo 8 and are at most one below and seven above are equal. */
  lemma ExpectedFrameIsNext(idx: nat, vr: nat)
    requires idx % 8 == vr % 8 && vr - 1 <= idx <= vr + 7
    ensures idx == vr
  {
  }

  lemma HeadOfForward(y: PathState, x: PathState, t: Transmission, yx: seq<Transmission>, xy: seq<Transmission>)
    requires t.frame.INFO? && Direction(y, x, [t] + yx, xy)
    ensures Direction(y, x, yx, xy)
    ensures !y.h.multi ==> GoodInfo(y, x, t) && forall u | u in yx && u.frame.INFO? :: t.idx <= u.idx
  {
    var all := [t] + yx;
    assert all[0] == t && t in all;
    assert forall j | 0 <= j < |yx| :: yx[j] == all[j + 1] && yx[j] in all;
  }

  /** A timeout resends the oldest message. With one message in flight nothing changes but the link;
      with more, the promise about x's messages ends. */
  lemma TimeoutKeepsDirections(c: PathConf, x: PathState, y: PathState, now: int,
                               xy: seq<Transmission>, yx: seq<Transmission>)
    requires LinkInv(c, x) && x.proto == Connected && x.sent != []
    requires Direction(x, y, xy, yx) && Direction(y, x, yx, xy)
    ensures var x' := Requeue(SendBackInfo(x, now));
            var xy' := xy + Emitted(x, x');
            Direction(x', y, xy', yx) && Direction(y, x', yx, xy')
    ensures var x' := Requeue(SendBackInfo(x, now));
            && x'.proto == Connected
            && forall u | u in Emitted(x, x') :: SessionFrame(u) && 0 <= AckOf(u.frame) < 8
  {
    var x' := Requeue(SendBackInfo(x, now));
    var t := x'.h.wire[|x.h.wire|];
    assert Emitted(x, x') == [t];
    if !x'.h.multi {
      assert |x.sent| == 1 && Payloads(x.sent)[0] == x.h.txs[x.h.va..][0];
      assert forall u | u in xy :: GoodInfo(x, y, u) && GoodInfo(x', y, u);
      assert forall u | u in yx :: GoodAck(x, y, u) && GoodAck(x', y, u);
      AppendForward(x', y, xy, t);
    }
    if !y.h.multi {
      assert forall u | u in xy :: GoodAck(y, x, u) && GoodAck(y, x', u);
      assert forall u | u in yx :: GoodInfo(y, x, u) && GoodInfo(y, x', u);
      AppendBackward(y, x', xy, t);
    }
  }

  // ---------------------------------------------------------------- runs

  function Step(n: Net, e: Event): Net {
    match e
    case OnLeft(a, now) => StepLeft(n, a, now)
    case OnRight(a, now) => Swap(StepLeft(Swap(n), a, now))
  }

  function Run(n: Net, evs: seq<Event>): Net {
    if evs == [] then n else Step(Run(n, evs[..|evs| - 1]), evs[|evs| - 1])
  }

  lemma {:induction false} RunKeepsInv(n: Net, evs: seq<Event>)
    requires NetInv(n)
    ensures NetInv(Run(n, evs))
    decreases |evs|
  {
    if evs != [] {
      RunKeepsInv(n, evs[..|evs| - 1]);
      StepKeepsInv(Run(n, evs[..|evs| - 1]), evs[|evs| - 1]);
    }
  }

  lemma StepKeepsInv(n: Net, e: Event)
    requires NetInv(n)
    ensures NetInv(Step(n, e))
  {
    match e
    case OnLeft(a, now) => StepLeftKeepsInv(n, a, now);
    case OnRight(a, now) => StepLeftKeepsInv(Swap(n), a, now);
  }

  lemma StepLeftKeepsInv(n: Net, a: Action, now: int)
    requires NetInv(n)
    ensures NetInv(StepLeft(n, a, now))
  {
    match a
    case Submit(p) => SubmitKeepsNet(n, p, now);
    case Timeout => TimeoutKeepsNet(n, now);
    case Deliver(handedUp) => DeliverKeepsNet(n, handedUp, now);
    case Lose(i) => LoseKeepsNet(n, i, now);
  }

  lemma SubmitKeepsNet(n: Net, p: Payload, now: int)
    requires NetInv(n)
    ensures NetInv(StepLeft(n, Submit(p), now))
  {
    var c, x, y, xy, yx := n.left.conf, n.left.state, n.right.state, n.left.link, n.right.link;
    var x' := SendInfo(c, x, p, now).state;
    SendInfoKeepsInv(c, x, p, now);
    SubmitKeepsDirections(c, x, y, p, now, xy, yx);
    assert StepLeft(n, Submit(p), now) == Net(Station(c, x', xy + Emitted(x, x')), n.right);
  }

  lemma SubmitKeepsDirections(c: PathConf, x: PathState, y: PathState, p: Payload, now: int,
                              xy: seq<Transmission>, yx: seq<Transmission>)
    requires x.proto == Connected && Numbered(x)
    requires Direction(x, y, xy, yx) && Direction(y, x, yx, xy)
    ensures var x' := SendInfo(c, x, p, now).state;
            && x'.proto == Connected
            && Direction(x', y, xy + Emitted(x, x'), yx) && Direction(y, x', yx, xy + Emitted(x, x'))
            && (forall u | u in Emitted(x, x') :: SessionFrame(u) && AckOf(u.frame) == x.nr)
  {
    var x' := SendInfo(c, x, p, now).state;
    var x1 := x.(h := x.h.(accepted := x.h.accepted + [p], submitted := x.h.submitted + [p]));
    DirectionIgnoresQueues(x, x1, y, xy, yx);
    if |x.sent| < c.ratio {
      SendKeepsDirections(c, x1, y, p, now, xy, yx);
      assert Emitted(x, x') == Emitted(x1, x');
    } else {
      DirectionIgnoresQueues(x, x', y, xy, yx);
      assert Emitted(x, x') == [] && xy + [] == xy;
    }
  }

  lemma TimeoutKeepsNet(n: Net, now: int)
    requires NetInv(n)
    ensures NetInv(StepLeft(n, Timeout, now))
  {
    var c, x, y, xy, yx := n.left.conf, n.left.state, n.right.state, n.left.link, n.right.link;
    if x.sent != [] && x.repeat < c.repeatMax {
      var x' := Requeue(SendBackInfo(x, now));
      TimeoutKeepsInv(c, x, now);
      TimeoutKeepsDirections(c, x, y, now, xy, yx);
      assert StepLeft(n, Timeout, now) == Net(Station(c, x', xy + Emitted(x, x')), n.right);
    } else {
      IdleKeepsNet(n, Timeout, now);
    }
  }

  lemma LoseKeepsNet(n: Net, i: nat, now: int)
    requires NetInv(n)
    ensures NetInv(StepLeft(n, Lose(i), now))
  {
    var x, y, xy, yx := n.left.state, n.right.state, n.left.link, n.right.link;
    assert Emitted(x, x) == [];
    if i < |xy| {
      RemoveKeepsDirections(x, y, xy, yx, i);
      var xy' := xy[..i] + xy[i + 1..];
      assert xy' + [] == xy' && forall t | t in xy' :: t in xy;
    } else {
      assert xy + [] == xy;
    }
  }

  lemma DeliverKeepsNet(n: Net, handedUp: bool, now: int)
    requires NetInv(n)
    ensures NetInv(StepLeft(n, Deliver(handedUp), now))
  {
    if n.right.link == [] {
      IdleKeepsNet(n, Deliver(handedUp), now);
    } else {
      var c, x, y, xy, yx := n.left.conf, n.left.state, n.right.state, n.left.link, n.right.link;
      var t, rest := yx[0], yx[1..];
      assert t in yx && yx == [t] + rest && forall u | u in rest :: u in yx;
      ReceiveKeepsStation(c, x, t.frame, handedUp, now);
      DeliverKeepsDirections(c, x, y, n.right.conf, t, handedUp, now, xy, rest);
      var x' := Receive(c, x, t.frame, handedUp, now);
      assert StepLeft(n, Deliver(handedUp), now) == Net(Station(c, x', xy + Emitted(x, x')), n.right.(link := rest));
    }
  }

  lemma IdleKeepsNet(n: Net, a: Action, now: int)
    requires NetInv(n) && React(n.left.conf, n.left.state, a, n.right.link, now) == n.left.state
    requires !a.Lose? && (a.Deliver? ==> n.right.link == [])
    ensures StepLeft(n, a, now) == n
  {
    assert Emitted(n.left.state, n.left.state) == [] && n.left.link + [] == n.left.link;
  }

  lemma DeliverKeepsDirections(c: PathConf, x: PathState, y: PathState, cy: PathConf, t: Transmission, handedUp: bool, now: int,
                               xy: seq<Transmission>, yx: seq<Transmission>)
    requires LinkInv(c, x) && x.proto == Connected && c.ratio <= 8
    requires LinkInv(cy, y) && y.proto == Connected && cy.ratio <= 8
    requires SessionFrame(t) && 0 <= AckOf(t.frame) < 8
    requires Direction(x, y, xy, [t] + yx) && Direction(y, x, [t] + yx, xy)
    ensures var x' := Receive(c, x, t.frame, handedUp, now);
            && Direction(x', y, xy + Emitted(x, x'), yx) && Direction(y, x', yx, xy + Emitted(x, x'))
            && (forall u | u in Emitted(x, x') :: SessionFrame(u) && 0 <= AckOf(u.frame) < 8)
  {
    if t.frame.RR? {
      DeliverRR(c, x, y, t, handedUp, now, xy, yx);
    } else {
      DeliverInfo(c, x, y, cy, t, handedUp, now, xy, yx);
    }
  }

  lemma DeliverRR(c: PathConf, x: PathState, y: PathState, t: Transmission, handedUp: bool, now: int,
                  xy: seq<Transmission>, yx: seq<Transmission>)
    requires LinkInv(c, x) && x.proto == Connected && c.ratio <= 8
    requires t.frame.RR? && 0 <= t.frame.ackNr < 8
    requires Direction(x, y, xy, [t] + yx) && Direction(y, x, [t] + yx, xy)
    ensures var x' := Receive(c, x, t.frame, handedUp, now);
            && Direction(x', y, xy + Emitted(x, x'), yx) && Direction(y, x', yx, xy + Emitted(x, x'))
            && (forall u | u in Emitted(x, x') :: SessionFrame(u) && 0 <= AckOf(u.frame) < 8)
  {
    var all := [t] + yx;
    RemoveKeepsDirections(y, x, all, xy, 0);
    assert all[..0] + all[1..] == yx;
    AckKeepsDirections(c, x, y, t, t.frame.final, now, xy, yx);
  }

  lemma DeliverInfo(c: PathConf, x: PathState, y: PathState, cy: PathConf, t: Transmission, handedUp: bool, now: int,
                    xy: seq<Transmission>, yx: seq<Transmission>)
    requires LinkInv(c, x) && x.proto == Connected && c.ratio <= 8
    requires LinkInv(cy, y) && y.proto == Connected && cy.ratio <= 8
    requires t.frame.INFO? && 0 <= t.frame.nr < 8
    requires Direction(x, y, xy, [t] + yx) && Direction(y, x, [t] + yx, xy)
    ensures var x' := Receive(c, x, t.frame, handedUp, now);
            && Direction(x', y, xy + Emitted(x, x'), yx) && Direction(y, x', yx, xy + Emitted(x, x'))
            && (forall u | u in Emitted(x, x') :: SessionFrame(u) && 0 <= AckOf(u.frame) < 8)
  {
    var x1 := AckOfInfo(c, x, y, cy, t, now, xy, yx);
    if ReceivedRR(c, x, t.frame.nr, false, now).ok {
      AcceptAfterAck(x, x1, y, cy, t, handedUp, now, xy, yx);
    } else {
      HeadOfForward(y, x1, t, yx, xy + Emitted(x, x1));
    }
  }

  lemma ReceiveKeepsStation(c: PathConf, x: PathState, f: Frame, handedUp: bool, now: int)
    requires LinkInv(c, x) && x.proto == Connected
    requires f.INFO? || f.RR?
    requires 0 <= AckOf(f) < 8
    ensures LinkInv(c, Receive(c, x, f, handedUp, now)) && Receive(c, x, f, handedUp, now).proto == Connected
  {
    match f
    case INFO(ns, nr, poll, p) =>
      ReceivedRRKeepsProto(c, x, nr, false, now);
      SendRRKeepsInv(c, x, poll, ns, nr, p, handedUp, now);
    case RR(nr, final) =>
      ReceivedRRKeepsInv(c, x, nr, final, now);
      ReceivedRRKeepsProto(c, x, nr, final, now);
  }

  /** The state between the two halves of an information frame. */
  lemma AckOfInfo(c: PathConf, x: PathState, y: PathState, cy: PathConf, t: Transmission, now: int,
                  xy: seq<Transmission>, yx: seq<Transmission>) returns (x1: PathState)
    requires LinkInv(c, x) && x.proto == Connected && c.ratio <= 8
    requires t.frame.INFO? && 0 <= t.frame.nr < 8
    requires Direction(x, y, xy, [t] + yx) && Direction(y, x, [t] + yx, xy)
    ensures x1 == ReceivedRR(c, x, t.frame.nr, false, now).state
    ensures Numbered(x1) && x1.proto == Connected
    ensures |x.h.wire| <= |x1.h.wire| && x1.h.wire[..|x.h.wire|] == x.h.wire
    ensures forall u | u in Emitted(x, x1) :: SessionFrame(u) && 0 <= AckOf(u.frame) < 8
    ensures Direction(x1, y, xy + Emitted(x, x1), yx) && Direction(y, x1, [t] + yx, xy + Emitted(x, x1))
  {
    x1 := ReceivedRR(c, x, t.frame.nr, false, now).state;
    AckKeepsDirectionsWithHead(c, x, y, cy, t, now, xy, yx);
    ReceivedRRKeepsInv(c, x, t.frame.nr, false, now);
    ReceivedRRKeepsProto(c, x, t.frame.nr, false, now);
  }

  /** The two halves of an information frame put their frames one after the other on the link. */
  lemma AcceptAfterAck(x: PathState, x1: PathState, y: PathState, cy: PathConf, t: Transmission, handedUp: bool, now: int,
                       xy: seq<Transmission>, yx: seq<Transmission>)
    requires |x.h.wire| <= |x1.h.wire| && x1.h.wire[..|x.h.wire|] == x.h.wire
    requires forall u | u in Emitted(x, x1) :: SessionFrame(u) && 0 <= AckOf(u.frame) < 8
    requires t.frame.INFO? && Numbered(x1) && LinkInv(cy, y) && y.proto == Connected && cy.ratio <= 8
    requires Direction(x1, y, xy + Emitted(x, x1), yx) && Direction(y, x1, [t] + yx, xy + Emitted(x, x1))
    ensures var x' := Acknowledge(x1, t.frame.poll, t.frame.ns, t.frame.payload, handedUp, now);
            && x'.proto == x1.proto
            && Direction(x', y, xy + Emitted(x, x'), yx) && Direction(y, x', yx, xy + Emitted(x, x'))
            && (forall u | u in Emitted(x, x') :: SessionFrame(u) && 0 <= AckOf(u.frame) < 8)
  {
    var x' := Acknowledge(x1, t.frame.poll, t.frame.ns, t.frame.payload, handedUp, now);
    AcceptKeepsDirections(x1, y, cy, t, handedUp, now, xy + Emitted(x, x1), yx);
    EmittedComposes(x, x1, x', xy);
  }

  /** The acknowledgement half of an information frame, which stays in view of the receive half. */
  lemma AckKeepsDirectionsWithHead(c: PathConf, x: PathState, y: PathState, cy: PathConf, t: Transmission, now: int,
                                   xy: seq<Transmission>, yx: seq<Transmission>)
    requires LinkInv(c, x) && x.proto == Connected && c.ratio <= 8
    requires t.frame.INFO? && 0 <= t.frame.nr < 8
    requires Direction(x, y, xy, [t] + yx) && Direction(y, x, [t] + yx, xy)
    ensures var x' := ReceivedRR(c, x, t.frame.nr, false, now).state;
            var xy' := xy + Emitted(x, x');
            && Direction(x', y, xy', yx) && Direction(y, x', [t] + yx, xy')
            && |x.h.wire| <= |x'.h.wire| && x'.h.wire[..|x.h.wire|] == x.h.wire
            && (forall u | u in Emitted(x, x') :: SessionFrame(u) && AckOf(u.frame) == x.nr)
  {
    HeadOfForward(y, x, t, yx, xy);
    AckKeepsDirections(c, x, y, t, false, now, xy, yx);
    var x' := ReceivedRR(c, x, t.frame.nr, false, now).state;
    if !y.h.multi {
      assert forall u | u in [t] + yx :: GoodInfo(y, x, u) && GoodInfo(y, x', u);
    }
  }

  /** Both stations have just entered CONNECTED: counters reset, queues and links empty. */
  predicate SessionStart(n: Net) {
    && Fresh(n.left) && Fresh(n.right)
  }

  predicate Fresh(s: Station) {
    && LinkInv(s.conf, s.state) && s.state.proto == Connected && s.link == []
    && s.state.h.txs == [] && s.state.h.rcv == [] && !s.state.h.multi
    && s.state.h.up == [] && s.state.h.missed == 0
  }

  lemma StartIsGood(n: Net)
    requires SessionStart(n) && n.left.conf.ratio <= 8 && n.right.conf.ratio <= 8
    ensures NetInv(n)
  {
  }

  /** What a station promises to its peer. */
  predicate DeliveredInOrder(x: PathState, y: PathState) {
    && x.h.popped <= y.h.rcv             // what x counts as acknowledged, y has accepted
    && y.h.rcv <= x.h.txs                // in the order in which x sent it first, each message once
    && x.h.txs <= x.h.submitted          // which is the order in which the application gave it
  }

  /** Main result. Over every run of the two stations, with any losses and delays, the payloads popped
      as acknowledged are a prefix of the payloads the peer accepted in sequence, as long as no timeout
      of the sender found two or more messages in flight. The anticipation ratio is at most eight; more
      than that is enough for the law to fail, see module Overtaking. */
  lemma AcknowledgedIsDelivered(n: Net, evs: seq<Event>)
    requires SessionStart(n) && n.left.conf.ratio <= 8 && n.right.conf.ratio <= 8
    ensures var r := Run(n, evs);
            && (!r.left.state.h.multi ==> DeliveredInOrder(r.left.state, r.right.state))
            && (!r.right.state.h.multi ==> DeliveredInOrder(r.right.state, r.left.state))
  {
    StartIsGood(n);
    RunKeepsInv(n, evs);
    var r := Run(n, evs);
    if !r.left.state.h.multi {
      PrefixFromDirection(r.left.conf, r.left.state, r.right.state, r.left.link, r.right.link);
    }
    if !r.right.state.h.multi {
      PrefixFromDirection(r.right.conf, r.right.state, r.left.state, r.right.link, r.left.link);
    }
  }

  lemma PrefixFromDirection(c: PathConf, x: PathState, y: PathState,
                            xy: seq<Transmission>, yx: seq<Transmission>)
    requires LinkInv(c, x) && x.proto == Connected && !x.h.multi && Direction(x, y, xy, yx)
    ensures DeliveredInOrder(x, y)
  {
    assert x.h.popped == x.h.txs[..x.h.va];
    assert y.h.rcv[..x.h.va] == x.h.popped;
  }

  // ---------------------------------------------------------------- up to the application

  /** The station hands the messages of every frame up, as the path does that may deliver. */
  predicate Delivers(a: Action) {
    a.Deliver? ==> a.handedUp
  }

  lemma ReceiveMissesNothing(c: PathConf, x: PathState, f: Frame, now: int)
    requires x.proto == Connected
    ensures Receive(c, x, f, true, now).h.missed == x.h.missed
  {
    match f
    case INFO(ns, nr, poll, p) => RefillKeepsInput(c, Pop(x, nr, now), now);
    case RR(nr, final) => RefillKeepsInput(c, Pop(x, nr, now), now);
    case _ =>
  }

  lemma StepMissesNothing(n: Net, a: Action, now: int)
    requires Delivers(a)
    ensures StepLeft(n, a, now).left.state.h.missed == n.left.state.h.missed
    ensures StepLeft(n, a, now).right.state == n.right.state
  {
    if Up(n) && a.Deliver? && n.right.link != [] {
      ReceiveMissesNothing(n.left.conf, n.left.state, n.right.link[0].frame, now);
    }
  }

  lemma {:induction false} RunMissesNothing(n: Net, evs: seq<Event>)
    requires forall e | e in evs :: Delivers(e.a)
    ensures Run(n, evs).left.state.h.missed == n.left.state.h.missed
    ensures Run(n, evs).right.state.h.missed == n.right.state.h.missed
    decreases |evs|
  {
    if evs != [] {
      var init, e := evs[..|evs| - 1], evs[|evs| - 1];
      assert e in evs && forall f | f in init :: f in evs;
      RunMissesNothing(n, init);
      match e
      case OnLeft(a, now) => StepMissesNothing(Run(n, init), a, now);
      case OnRight(a, now) => StepMissesNothing(Swap(Run(n, init)), a, now);
    }
  }

  /** What x counts as acknowledged, the application of y has got: at least once, and exactly once and in
      order as long as y handed up no frame out of sequence. */
  predicate DeliveredUp(x: PathState, y: PathState) {
    && multiset(x.h.popped) <= multiset(y.h.up)
    && (y.h.duplicates == 0 ==> x.h.popped <= y.h.up)
  }

  /** Main result. Between stations that deliver, acknowledged means handed up to the application. */
  lemma AcknowledgedIsHandedUp(n: Net, evs: seq<Event>)
    requires SessionStart(n) && n.left.conf.ratio <= 8 && n.right.conf.ratio <= 8
    requires forall e | e in evs :: Delivers(e.a)
    ensures var r := Run(n, evs);
            && (!r.left.state.h.multi ==> DeliveredUp(r.left.state, r.right.state))
            && (!r.right.state.h.multi ==> DeliveredUp(r.right.state, r.left.state))
  {
    AcknowledgedIsDelivered(n, evs);
    RunMissesNothing(n, evs);
    StartIsGood(n);
    RunKeepsInv(n, evs);
    var r := Run(n, evs);
    if !r.left.state.h.multi {
      PrefixIsHandedUp(r.left.state, r.right.state);
    }
    if !r.right.state.h.multi {
      PrefixIsHandedUp(r.right.state, r.left.state);
    }
  }

  lemma PrefixIsHandedUp(x: PathState, y: PathState)
    requires x.h.popped <= y.h.rcv && HandedUp(y) && y.h.missed == 0
    ensures DeliveredUp(x, y)
  {
    assert y.h.rcv == x.h.popped + y.h.rcv[|x.h.popped|..];
  }
}
