/** The arbiter over all interleavings: who is active, who may deliver, and how a transition of the
    automaton goes through it. */
module Arbitration {
  import opened HnzTypes
  import opened GiLog
  import opened Link
  import opened HnzSystem

  // ---------------------------------------------------------------- what always holds

  /** At most one path is ACTIVE, and it is the one the arbiter points to. */
  predicate Elected(s: Sys) {
    && (s.active.Some? ==> s.active.value < |s.paths| && s.paths[s.active.value].conn == Active)
    && (forall i | 0 <= i < |s.paths| && s.paths[i].conn == Active :: s.active == Some(i))
  }

  /** The connection is STARTED exactly while there is an active path; without one, init messages are due. */
  predicate StatusFits(s: Sys) {
    && (s.fledge.connStatus == Started <==> s.active.Some?)
    && (s.active.None? ==> s.sendInit)
  }

  /** While running, no path stays PASSIVE without an active one. */
  predicate NoIdlePassive(s: Sys) {
    s.running && s.active.None? ==> forall i | 0 <= i < |s.paths| :: s.paths[i].conn != Passive
  }

  predicate InputOpen(p: PathState) {
    p.proto == InputConnected || p.proto == Connected
  }

  predicate FirstFits(s: Sys) {
    s.first.Some? ==> s.first.value < |s.paths| && InputOpen(s.paths[s.first.value])
  }

  /** The connection state is an abstraction of the protocol state. */
  predicate Abstracts(p: PathState) {
    && (p.proto == Connection <==> p.conn == Disconnected)
    && (p.proto == InputConnected || p.proto == OutputConnected <==> p.conn == PendingHnz)
    && (p.proto == Connected <==> p.conn == Active || p.conn == Passive)
  }

  predicate AllAbstract(s: Sys) {
    forall i | 0 <= i < |s.paths| :: Abstracts(s.paths[i])
  }

  predicate ArbiterInv(s: Sys) {
    Elected(s) && StatusFits(s) && NoIdlePassive(s) && FirstFits(s) && AllAbstract(s)
  }

  // ---------------------------------------------------------------- one request to the arbiter

  /** The state asked for on entry in a protocol state. */
  function Target(next: ProtocolState): ConnectionState {
    match next
    case Connection => Disconnected
    case Connected => Active
    case _ => PendingHnz
  }

  /** The path has entered `next`, the arbiter has not been asked yet. */
  function Entered(s: Sys, i: nat, next: ProtocolState): Sys
    requires i < |s.paths|
  {
    SetPath(s, i, s.paths[i].(proto := next))
  }

  function NewConn(s: Sys, wanted: ConnectionState): ConnectionState {
    if wanted != Active then wanted else if s.active == None then Active else Passive
  }

  /** The path that takes over when path i, the active one, asks for another state. */
  function Successor(s: Sys, i: nat, wanted: ConnectionState): (r: Option<nat>)
    requires i < |s.paths|
    ensures r.Some? ==> r.value < |s.paths| && r.value != i && s.paths[r.value].conn == Passive
  {
    if wanted != Active && s.active == Some(i) && s.running then FirstPassive(s.paths, i, 0) else None
  }

  /** The answer of the arbiter, path by path: it changes connection states only, those of the path that
      asks and of its successor. */
  predicate Answer(s: Sys, i: nat, wanted: ConnectionState, r: Sys)
    requires i < |s.paths|
  {
    var next := Successor(s, i, wanted);
    && |r.paths| == |s.paths|
    && r.paths[i] == s.paths[i].(conn := NewConn(s, wanted))
    && (forall j | 0 <= j < |s.paths| && j != i ::
          r.paths[j] == if next == Some(j) then s.paths[j].(conn := Active) else s.paths[j])
    && r.first == NoteInput(s, i)
    && r.active == (if wanted == Active then (if s.active == None then Some(i) else s.active)
                    else if s.active == Some(i) then next else s.active)
    && r.giRepeat == (if wanted != Active && s.active == Some(i) then 0 else s.giRepeat)
    && r.giLog == (if wanted != Active && s.active == Some(i) then s.giLog + [ActivePathLost] else s.giLog)
    && r.running == s.running && r.giStart == s.giStart && r.sched == s.sched && r.crashed == s.crashed
    && (wanted == Active && s.active == None ==>
          r.fledge == s.fledge.(connStatus := Started) && r.sendInit == s.sendInit)
    && (wanted == Active && s.active != None ==> r.fledge == s.fledge && r.sendInit == s.sendInit)
    && (wanted != Active && s.active != Some(i) ==> r.fledge == s.fledge && r.sendInit == s.sendInit)
    && (wanted != Active && s.active == Some(i) ==>
          && r.fledge == s.fledge.(connStatus := if next.Some? then Started else NotConnected)
          && r.sendInit == (s.sendInit || next.None?))
  }

  lemma FirstPassiveIgnoresSelf(ps: seq<PathState>, i: nat, j: nat, p: PathState)
    requires i < |ps| && j <= |ps|
    ensures FirstPassive(ps[i := p], i, j) == FirstPassive(ps, i, j)
    decreases |ps| - j
  {
    if j < |ps| {
      FirstPassiveIgnoresSelf(ps, i, j + 1, p);
    }
  }

  lemma RequestAnswers(s: Sys, i: nat, wanted: ConnectionState)
    requires i < |s.paths|
    ensures Answer(s, i, wanted, Request(s, i, wanted))
  {
    if wanted != Active && s.active == Some(i) {
      FailoverAnswers(s, i, wanted);
    }
  }

  lemma FailoverAnswers(s: Sys, i: nat, wanted: ConnectionState)
    requires i < |s.paths| && wanted != Active && s.active == Some(i)
    ensures Answer(s, i, wanted, Request(s, i, wanted))
  {
    FirstPassiveIgnoresSelf(s.paths, i, 0, s.paths[i].(conn := wanted));
    var s1 := s.(first := NoteInput(s, i));
    var s2 := LoseActive(SetConnectionState(s1, i, wanted));
    var heir := Successor(s, i, wanted);
    if heir.None? {
      assert Request(s, i, wanted) == UpdateConnectionStatus(s2, NotConnected);
    } else {
      var s3 := SetConnectionState(s2.(active := heir), heir.value, Active);
      assert Request(s, i, wanted) == UpdateConnectionStatus(s3, Started);
    }
  }

  /** What the path does to its own variables before the request does not matter to the arbiter. */
  lemma RequestCommutes(s: Sys, i: nat, wanted: ConnectionState, p: PathState)
    requires i < |s.paths| && p.proto == s.paths[i].proto
    ensures var r := Request(s, i, wanted);
            Request(SetPath(s, i, p), i, wanted) == SetPath(r, i, p.(conn := r.paths[i].conn))
  {
    RequestAnswers(s, i, wanted);
    RequestAnswers(SetPath(s, i, p), i, wanted);
    AnswerCommutes(s, i, wanted, p, Request(s, i, wanted), Request(SetPath(s, i, p), i, wanted));
  }

  lemma AnswerCommutes(s: Sys, i: nat, wanted: ConnectionState, p: PathState, r: Sys, r': Sys)
    requires i < |s.paths| && p.proto == s.paths[i].proto
    requires Answer(s, i, wanted, r) && Answer(SetPath(s, i, p), i, wanted, r')
    ensures r' == SetPath(r, i, p.(conn := r.paths[i].conn))
  {
    FirstPassiveIgnoresSelf(s.paths, i, 0, p);
    assert r'.paths == r.paths[i := p.(conn := r.paths[i].conn)];
  }

  /** What one request keeps. A path that asks to be ACTIVE is not active already: the demoting branch
      never hits the active path. */
  lemma AnswerKeepsArbiter(s: Sys, i: nat, next: ProtocolState, r: Sys)
    requires i < |s.paths| && ArbiterInv(s)
    requires next == Connected ==> s.paths[i].conn == PendingHnz
    requires Answer(Entered(s, i, next), i, Target(next), r)
    ensures next == Connected ==> s.active != Some(i)
    ensures ArbiterInv(r)
  {
    var s0 := Entered(s, i, next);
    var heir := Successor(s0, i, Target(next));
    forall j | 0 <= j < |r.paths| ensures Abstracts(r.paths[j]) {
      assert Abstracts(s.paths[j]);
    }
    assert NoteInput(s0, i) == (if s.first == None && InputOpen(s0.paths[i]) then Some(i)
                                else if s.first == Some(i) && !InputOpen(s0.paths[i]) then None else s.first);
    if s.active == Some(i) && heir.None? && s.running {
      assert forall j | 0 <= j < |s.paths| && j != i :: s0.paths[j].conn != Passive;
    }
  }

  // ---------------------------------------------------------------- one row of the automaton

  function LinkActs(acts: seq<Act>, p: PathState, now: int): PathState
    decreases |acts|
  {
    if acts == [] then p else LinkActs(acts[1..], LinkAct(acts[0], p, now), now)
  }

  lemma ActsOfOne(a: Act, p: PathState, now: int)
    ensures LinkActs([a], p, now) == LinkAct(a, p, now)
  {
    assert [a][1..] == [];
  }

  lemma ActsOfTwo(a: Act, b: Act, p: PathState, now: int)
    ensures LinkActs([a, b], p, now) == LinkAct(b, LinkAct(a, p, now), now)
  {
    assert [a, b][1..] == [b] && [b][1..] == [];
    assert LinkActs([b], LinkAct(a, p, now), now) == LinkAct(b, LinkAct(a, p, now), now);
  }

  lemma ActsOfThree(a: Act, b: Act, c: Act, p: PathState, now: int)
    ensures LinkActs([a, b, c], p, now) == LinkAct(c, LinkAct(b, LinkAct(a, p, now), now), now)
  {
    assert [a, b, c][1..] == [b, c];
    ActsOfTwo(b, c, LinkAct(a, p, now), now);
  }

  lemma ActsOfFour(a: Act, b: Act, c: Act, d: Act, p: PathState, now: int)
    ensures LinkActs([a, b, c, d], p, now)
            == LinkAct(d, LinkAct(c, LinkAct(b, LinkAct(a, p, now), now), now), now)
  {
    assert [a, b, c, d][1..] == [b, c, d] && [b, c, d][1..] == [c, d];
    ActsOfTwo(c, d, LinkAct(b, LinkAct(a, p, now), now), now);
  }

  lemma LinkActKeepsState(a: Act, p: PathState, now: int, conn: ConnectionState)
    ensures LinkAct(a, p, now).proto == p.proto && LinkAct(a, p, now).conn == p.conn
    ensures LinkAct(a, p.(conn := conn), now) == LinkAct(a, p, now).(conn := conn)
  {
  }

  lemma {:induction false} LinkActsKeepState(acts: seq<Act>, p: PathState, now: int, conn: ConnectionState)
    ensures LinkActs(acts, p, now).proto == p.proto && LinkActs(acts, p, now).conn == p.conn
    ensures LinkActs(acts, p.(conn := conn), now) == LinkActs(acts, p, now).(conn := conn)
    decreases |acts|
  {
    if acts != [] {
      LinkActKeepsState(acts[0], p, now, conn);
      LinkActsKeepState(acts[1..], LinkAct(acts[0], p, now), now, conn);
    }
  }

  lemma SetPathTwice(s: Sys, i: nat, p: PathState, q: PathState)
    requires i < |s.paths|
    ensures SetPath(SetPath(s, i, p), i, q) == SetPath(s, i, q)
  {
    assert s.paths[i := p][i := q] == s.paths[i := q];
  }

  lemma {:induction false} QuietActs(s: Sys, i: nat, acts: seq<Act>, now: int)
    requires i < |s.paths| && forall a | a in acts :: Wanted(a) == None
    ensures DoActs(s, i, acts, now) == SetPath(s, i, LinkActs(acts, s.paths[i], now))
    decreases |acts|
  {
    if acts == [] {
      assert s.paths[i := s.paths[i]] == s.paths;
    } else {
      var s1 := DoAct(s, i, acts[0], now);
      assert acts[0] in acts && forall a | a in acts[1..] :: a in acts;
      assert s1 == SetPath(s, i, LinkAct(acts[0], s.paths[i], now));
      QuietActs(s1, i, acts[1..], now);
      SetPathTwice(s, i, s1.paths[i], LinkActs(acts, s.paths[i], now));
    }
  }

  lemma {:induction false} ActsAppend(s: Sys, i: nat, a: seq<Act>, b: seq<Act>, now: int)
    requires i < |s.paths|
    ensures DoActs(s, i, a + b, now) == DoActs(DoActs(s, i, a, now), i, b, now)
    ensures LinkActs(a + b, s.paths[i], now) == LinkActs(b, LinkActs(a, s.paths[i], now), now)
    decreases |a|
  {
    if a == [] {
      assert a + b == b;
    } else {
      assert (a + b)[1..] == a[1..] + b;
      var s1 := DoAct(s, i, a[0], now);
      ActsAppend(s1, i, a[1..], b, now);
      ActsAppend(SetPath(s, i, LinkAct(a[0], s.paths[i], now)), i, a[1..], b, now);
    }
  }

  /** Where a row asks the arbiter. */
  function AskAt(acts: seq<Act>): nat {
    if acts == [] || Wanted(acts[0]).Some? then 0 else 1 + AskAt(acts[1..])
  }

  /** Every row asks the arbiter exactly once, for the state that goes with the new protocol state. */
  lemma RowAsksOnce(from: ProtocolState, event: ConnectionEvent)
    requires Row(from, event).Some?
    ensures var t := Row(from, event).value;
            var k := AskAt(t.actions);
            && k < |t.actions| && Wanted(t.actions[k]) == Some(Target(t.next))
            && (forall j | 0 <= j < |t.actions| && j != k :: Wanted(t.actions[j]) == None)
            && (t.next == Connected ==> from == InputConnected || from == OutputConnected)
  {
    RowAsks(from, event);
    RowAsksNoMore(from, event);
    var acts := Row(from, event).value.actions;
    forall j | 0 <= j < AskAt(acts) ensures j < |acts| && Wanted(acts[j]) == None {
      QuietBeforeAsk(acts, j);
    }
  }

  lemma {:induction false} AskIsFirst(acts: seq<Act>, k: nat)
    requires k < |acts| && Wanted(acts[k]).Some? && forall j | 0 <= j < k :: Wanted(acts[j]) == None
    ensures AskAt(acts) == k
    decreases k
  {
    if k > 0 {
      assert Wanted(acts[0]) == None;
      AskIsFirst(acts[1..], k - 1);
    }
  }

  lemma RowAsks(from: ProtocolState, event: ConnectionEvent)
    requires Row(from, event).Some?
    ensures var t := Row(from, event).value;
            var k := AskAt(t.actions);
            && k < |t.actions| <= 4 && Wanted(t.actions[k]) == Some(Target(t.next))
            && (t.next == Connected ==> from == InputConnected || from == OutputConnected)
  {
    var acts := Row(from, event).value.actions;
    AskIsFirst(acts, if Wanted(acts[0]).Some? then 0 else if Wanted(acts[1]).Some? then 1 else 2);
  }

  lemma RowAsksNoMore(from: ProtocolState, event: ConnectionEvent)
    requires Row(from, event).Some?
    ensures var acts := Row(from, event).value.actions;
            forall j | AskAt(acts) < j < |acts| :: Wanted(acts[j]) == None
  {
    var acts := Row(from, event).value.actions;
    AskIsFirst(acts, if Wanted(acts[0]).Some? then 0 else if Wanted(acts[1]).Some? then 1 else 2);
  }

  lemma {:induction false} QuietBeforeAsk(acts: seq<Act>, j: nat)
    requires j < AskAt(acts)
    ensures j < |acts| && Wanted(acts[j]) == None
    decreases j
  {
    if j > 0 {
      QuietBeforeAsk(acts[1..], j - 1);
    }
  }

  lemma UpToRequest(s: Sys, i: nat, pre: seq<Act>, a: Act, now: int)
    requires i < |s.paths| && Wanted(a).Some? && forall x | x in pre :: Wanted(x) == None
    ensures var r := Request(s, i, Wanted(a).value);
            DoActs(s, i, pre + [a], now)
            == SetPath(r, i, LinkActs(pre + [a], s.paths[i], now).(conn := r.paths[i].conn))
  {
    var p := s.paths[i];
    var r := Request(s, i, Wanted(a).value);
    ActsAppend(s, i, pre, [a], now);
    QuietActs(s, i, pre, now);
    var p1 := LinkActs(pre, p, now);
    LinkActsKeepState(pre, p, now, p.conn);
    RequestCommutes(s, i, Wanted(a).value, p1);
    LastAct(SetPath(s, i, p1), i, a, now);
    LinkActKeepsState(a, p1, now, r.paths[i].conn);
    SetPathTwice(r, i, p1.(conn := r.paths[i].conn), LinkAct(a, p1, now).(conn := r.paths[i].conn));
  }

  lemma LastAct(s: Sys, i: nat, a: Act, now: int)
    requires i < |s.paths|
    ensures DoActs(s, i, [a], now) == DoAct(s, i, a, now)
    ensures LinkActs([a], s.paths[i], now) == LinkAct(a, s.paths[i], now)
  {
    assert [a][1..] == [];
  }

  lemma OneRequest(s: Sys, i: nat, pre: seq<Act>, a: Act, post: seq<Act>, now: int)
    requires i < |s.paths| && Wanted(a).Some?
    requires (forall x | x in pre :: Wanted(x) == None) && (forall x | x in post :: Wanted(x) == None)
    ensures var r := Request(s, i, Wanted(a).value);
            DoActs(s, i, pre + [a] + post, now)
            == SetPath(r, i, LinkActs(pre + [a] + post, s.paths[i], now).(conn := r.paths[i].conn))
  {
    var r := Request(s, i, Wanted(a).value);
    var conn := r.paths[i].conn;
    var p2 := LinkActs(pre + [a], s.paths[i], now);
    ActsAppend(s, i, pre + [a], post, now);
    UpToRequest(s, i, pre, a, now);
    QuietActs(SetPath(r, i, p2.(conn := conn)), i, post, now);
    LinkActsKeepState(post, p2, now, conn);
    SetPathTwice(r, i, p2.(conn := conn), LinkActs(post, p2.(conn := conn), now));
  }

  lemma QuietAround(acts: seq<Act>, k: nat)
    requires k < |acts| && forall j | 0 <= j < |acts| && j != k :: Wanted(acts[j]) == None
    ensures acts == acts[..k] + [acts[k]] + acts[k + 1..]
    ensures (forall x | x in acts[..k] :: Wanted(x) == None) && (forall x | x in acts[k + 1..] :: Wanted(x) == None)
  {
  }

  /** A transition is one request to the arbiter and, apart from it, the actions on the path's own
      variables: their order with respect to the request makes no difference. */
  lemma TransitionIs(s: Sys, i: nat, event: ConnectionEvent, now: int)
    requires i < |s.paths| && Row(s.paths[i].proto, event).Some?
    ensures var t := Row(s.paths[i].proto, event).value;
            var s0 := Entered(s, i, t.next);
            var r := Request(s0, i, Target(t.next));
            ProtocolTransition(s, i, event, now)
            == SetPath(r, i, LinkActs(t.actions, s0.paths[i], now).(conn := r.paths[i].conn))
  {
    RowAsksOnce(s.paths[i].proto, event);
    var t := Row(s.paths[i].proto, event).value;
    var k := AskAt(t.actions);
    QuietAround(t.actions, k);
    OneRequest(Entered(s, i, t.next), i, t.actions[..k], t.actions[k], t.actions[k + 1..], now);
  }

  lemma SamePathStatesKeepArbiter(s: Sys, r: Sys)
    requires ArbiterInv(s) && |r.paths| == |s.paths|
    requires forall i | 0 <= i < |s.paths| :: r.paths[i].proto == s.paths[i].proto && r.paths[i].conn == s.paths[i].conn
    requires r.active == s.active && r.first == s.first && (r.running ==> s.running)
    requires r.fledge.connStatus == s.fledge.connStatus && (r.active.None? ==> r.sendInit)
    ensures ArbiterInv(r)
  {
    assert forall i | 0 <= i < |s.paths| :: Abstracts(s.paths[i]);
  }

  lemma EntryKeepsArbiter(s: Sys, i: nat, q: PathState, r: Sys)
    requires i < |s.paths| && ArbiterInv(s)
    requires q.proto == Connected ==> s.paths[i].conn == PendingHnz
    requires Answer(Entered(s, i, q.proto), i, Target(q.proto), r)
    ensures ArbiterInv(SetPath(r, i, q.(conn := r.paths[i].conn)))
  {
    AnswerKeepsArbiter(s, i, q.proto, r);
    SamePathStatesKeepArbiter(r, SetPath(r, i, q.(conn := r.paths[i].conn)));
  }

  lemma TransitionKeepsArbiter(s: Sys, i: nat, event: ConnectionEvent, now: int)
    requires i < |s.paths| && ArbiterInv(s)
    ensures ArbiterInv(ProtocolTransition(s, i, event, now))
  {
    var row := Row(s.paths[i].proto, event);
    if row.Some? {
      RowAsksOnce(s.paths[i].proto, event);
      assert Abstracts(s.paths[i]);
      var s0 := Entered(s, i, row.value.next);
      TransitionIs(s, i, event, now);
      RequestAnswers(s0, i, Target(row.value.next));
      LinkActsKeepState(row.value.actions, s0.paths[i], now, s0.paths[i].conn);
      EntryKeepsArbiter(s, i, LinkActs(row.value.actions, s0.paths[i], now), Request(s0, i, Target(row.value.next)));
    }
  }
}
