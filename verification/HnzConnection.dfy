/** The objects of the plugin: Hnz, which holds the connection and GI status, and HnzConnection, which
    holds the paths and arbitrates. Every method that the events of the state machine go through is proved
    to compute the function of that event. Back-pointers of the code become arguments: the receiver of
    these methods is the connection the path points to, and `fledge` the HNZ object it points to. */
module HnzConnectionClass {
  import opened HnzTypes
  import opened HnzPathClass
  import Commands
  import GiLog
  import GiResult
  import HnzSystem
  import Link
  import Messages
  import SystemInvariants
  import Theorems

  class Hnz {
    const cfg: HnzSystem.SysConf
    var connStatus: ConnectionStatus
    var giStatus: GiStatus
    var giInQueue: bool
    var giReceived: seq<nat>
    var invalidated: seq<nat>
    var daySection: Byte

    ghost function State(): HnzSystem.Fledge
      reads this
    {
      HnzSystem.Fledge(connStatus, giStatus, giInQueue, giReceived, invalidated, daySection)
    }

    constructor (cfg: HnzSystem.SysConf)
      ensures this.cfg == cfg && State() == HnzSystem.START_FLEDGE
    {
      this.cfg := cfg;
      connStatus, giStatus, giInQueue := NotConnected, GiIdle, false;
      giReceived, invalidated, daySection := [], [], 0;
    }

    method UpdateConnectionStatus(status: ConnectionStatus)
      modifies this
      ensures State() == old(State()).(connStatus := status)
    {
      if connStatus == status {
        return;
      }
      connStatus := status;
    }

    method UpdateGiStatus(status: GiStatus)
      modifies this
      ensures State() == old(State()).(giStatus := status)
    {
      if giStatus == status {
        return;
      }
      giStatus := status;
    }

    method ResetGIQueue()
      modifies this
      ensures State() == old(State()).(giReceived := [])
    {
      giReceived := [];
    }

    /** The loop of m_handleTSCG over the sixteen TS of a message. */
    method AddReceived(ado: Byte)
      modifies this
      ensures State() == old(State()).(giReceived := old(giReceived) + GiResult.TscgReceived(cfg.tsAddresses, ado))
    {
      ghost var all := GiResult.TscgAddresses(ado, 16);
      var i := 0;
      while i < 16
        invariant 0 <= i <= 16
        invariant State() == old(State()).(giReceived := giReceived)
        invariant giReceived == old(giReceived) + GiResult.Labelled(cfg.tsAddresses, all[..i])
      {
        var address := GiResult.TscgAddress(ado, i);
        assert all[..i + 1][..i] == all[..i] && all[..i + 1][i] == address;
        if address in cfg.tsAddresses {
          giReceived := giReceived + [address];
        }
        i := i + 1;
      }
      assert all[..16] == all;
    }

    method HandleTSCG(ado: Byte)
      modifies this
      ensures State() == old(State()).(
                giReceived := old(giReceived) + GiResult.TscgReceived(cfg.tsAddresses, ado),
                giStatus := if old(giStatus) == GiStarted then GiInProgress else old(giStatus))
    {
      AddReceived(ado);
      if giStatus == GiStarted {
        UpdateGiStatus(GiInProgress);
      }
    }

    /** m_sendAllTIQualityReadings for the TS: only the addresses of the readings are kept. */
    method SendAllTSQualityReadings(rejectFilter: seq<nat>)
      modifies this
      ensures State() == old(State()).(invalidated := GiResult.Unfiltered(cfg.tsAddresses, rejectFilter))
    {
      var hashFilter := GiResult.AddressSet(rejectFilter);
      var readings := [];
      var i := 0;
      while i < |cfg.tsAddresses|
        invariant 0 <= i <= |cfg.tsAddresses|
        invariant readings == GiResult.Unfiltered(cfg.tsAddresses[..i], rejectFilter)
      {
        assert cfg.tsAddresses[..i + 1][..i] == cfg.tsAddresses[..i];
        if cfg.tsAddresses[i] !in hashFilter {
          readings := readings + [cfg.tsAddresses[i]];
        }
        i := i + 1;
      }
      assert cfg.tsAddresses[..i] == cfg.tsAddresses;
      invalidated := readings;
    }

    /** The part of GICompleted on the fields of HNZ, up to the delayed GI. */
    method CloseGi(success: bool)
      modifies this
      ensures State() == old(State()).(invalidated := GiResult.Unfiltered(cfg.tsAddresses, old(giReceived)),
                                       giStatus := if success then GiFinished else GiFailed,
                                       giReceived := [])
    {
      SendAllTSQualityReadings(giReceived);
      UpdateGiStatus(if success then GiFinished else GiFailed);
      ResetGIQueue();
    }

    method GetMismatchingTSCGAddresses() returns (missing: set<nat>, extra: set<nat>)
      ensures (missing, extra) == GiResult.Mismatch(GiResult.AddressSet(cfg.tsAddresses), giReceived)
    {
      missing, extra := GiResult.AddressSet(cfg.tsAddresses), {};
      var i := 0;
      while i < |giReceived|
        invariant 0 <= i <= |giReceived|
        invariant (missing, extra) == GiResult.Mismatch(GiResult.AddressSet(cfg.tsAddresses), giReceived[..i])
      {
        assert giReceived[..i + 1][..i] == giReceived[..i];
        var address := giReceived[i];
        if address !in missing {
          extra := extra + {address};
        } else {
          missing := missing - {address};
        }
        i := i + 1;
      }
      assert giReceived[..i] == giReceived;
    }
  }

  ghost function Snapshot(ps: seq<HnzPath>): (r: seq<PathState>)
    reads ps
    ensures |r| == |ps| && forall i | 0 <= i < |ps| :: r[i] == ps[i].State()
  {
    if ps == [] then [] else Snapshot(ps[..|ps| - 1]) + [ps[|ps| - 1].State()]
  }

  function Id(p: HnzPath?): Option<nat> {
    if p == null then None else Some(p.id)
  }

  /** A command is reported as sent only if the active path sends it at once. */
  predicate WentOut(cfg: HnzSystem.SysConf, s: HnzSystem.Sys, m: Payload, now: int)
    requires HnzSystem.WellSized(cfg, s)
  {
    s.active.Some? && Link.SendInfo(cfg.paths[s.active.value], s.paths[s.active.value], m, now).ok
  }

  lemma FrameStep(cfg: HnzSystem.SysConf, s: HnzSystem.Sys, i: nat, f: Frame, now: int)
    requires !s.crashed && HnzSystem.Ready(cfg, s) && i < |s.paths|
    ensures HnzSystem.Step(cfg, s, HnzSystem.Receive(i, f, now))
            == if HnzSystem.Expressible(cfg.paths[i], f) then HnzSystem.FrameReceived(cfg, s, i, f, now) else s
  {
  }

  lemma StepOf(cfg: HnzSystem.SysConf, s: HnzSystem.Sys, e: HnzSystem.Event)
    requires !s.crashed && HnzSystem.Ready(cfg, s) && HnzSystem.Concerns(s, e)
    ensures HnzSystem.Step(cfg, s, e) == HnzSystem.Effect(cfg, s, e)
  {
  }

  lemma ReachedNext(cfg: HnzSystem.SysConf, current: nat, now: int, before: seq<HnzSystem.Event>,
                    evs: seq<HnzSystem.Event>, k: nat)
    requires k < |evs|
    ensures var s := Theorems.Reached(cfg, current, now, before + evs[..k]);
            Theorems.Reached(cfg, current, now, before + evs[..k + 1]) == HnzSystem.Step(cfg, s, evs[k])
  {
    var all := before + evs[..k + 1];
    assert all[..|all| - 1] == before + evs[..k] && all[|all| - 1] == evs[k];
  }

  lemma ReachedIsReady(cfg: HnzSystem.SysConf, current: nat, now: int, evs: seq<HnzSystem.Event>)
    ensures HnzSystem.Ready(cfg, Theorems.Reached(cfg, current, now, evs))
  {
    SystemInvariants.RunKeepsInv(cfg, current, now, evs);
    SystemInvariants.InvIsReady(cfg, Theorems.Reached(cfg, current, now, evs));
  }

  lemma FoundPassive(s: HnzSystem.Sys, i: nat, j: nat)
    requires s.running && HnzSystem.FirstPassive(s.paths, i, 0) == Some(j)
    ensures HnzSystem.TryActivateOther(s, i)
            == HnzSystem.UpdateConnectionStatus(
                 HnzSystem.SetConnectionState(s.(active := Some(j)), j, Active), Started)
  {
  }

  class HnzConnection {
    const cfg: HnzSystem.SysConf
    const fledge: Hnz
    const paths: seq<HnzPath>

    var active: HnzPath?
    var first: HnzPath?
    var running: bool
    var sendInit: bool
    var giRepeat: int
    var giStart: int
    var day: int
    var scheduledTime: int
    var scheduleAlreadySent: bool
    var crashed: bool
    ghost var giLog: seq<GiLog.GiMark>

    ghost predicate Valid()
      reads this
    {
      && |paths| == |cfg.paths| && fledge.cfg == cfg
      && (forall i | 0 <= i < |paths| :: paths[i].id == i && paths[i].conf == cfg.paths[i])
      && (active != null ==> active in paths)
      && (first != null ==> first in paths)
    }

    ghost function Sys(): HnzSystem.Sys
      reads this, fledge, paths
    {
      HnzSystem.Sys(Snapshot(paths), Id(active), Id(first), running, sendInit, giRepeat, giLog, giStart,
                    HnzSystem.GiSchedule(day, scheduledTime, scheduleAlreadySent), fledge.State(), crashed)
    }

    /** Start of the connection, with the paths and the HNZ object already built. */
    constructor (cfg: HnzSystem.SysConf, fledge: Hnz, paths: seq<HnzPath>, current: nat, ghost now: int)
      requires |paths| == |cfg.paths| && fledge.cfg == cfg && fledge.State() == HnzSystem.START_FLEDGE
      requires forall i | 0 <= i < |paths| :: paths[i].id == i && paths[i].conf == cfg.paths[i]
      requires forall i | 0 <= i < |paths| :: paths[i].State() == Link.ResetSarmCounters(FRESH_PATH, now)
      ensures Valid() && this.cfg == cfg && this.fledge == fledge && this.paths == paths
      ensures Sys() == HnzSystem.Initial(cfg, current, now)
    {
      this.cfg, this.fledge, this.paths := cfg, fledge, paths;
      active, first := null, null;
      running, sendInit, crashed := true, true, false;
      giRepeat, giLog, giStart := 0, [], 0;
      day := current / DAY_MS;
      scheduledTime := HnzSystem.ScheduledTime(cfg.schedule, current);
      scheduleAlreadySent := cfg.schedule.active && current >= HnzSystem.ScheduledTime(cfg.schedule, current);
    }

    /** Only one path changed. */
    twostate lemma PathChanged(path: HnzPath)
      requires old(Valid()) && path in paths && unchanged(this) && unchanged(fledge)
      requires forall p | p in paths && p != path :: unchanged(p)
      ensures path.id < |paths| && paths[path.id] == path
      ensures Sys() == HnzSystem.SetPath(old(Sys()), path.id, path.State())
      ensures old(Sys()).paths[path.id] == old(path.State())
    {
      ghost var was, after := old(Snapshot(paths)), Snapshot(paths);
      forall i | 0 <= i < |paths| ensures after[i] == was[path.id := path.State()][i] {
        assert i != path.id ==> paths[i] != path && paths[i] in paths;
      }
      assert after == was[path.id := path.State()];
    }

    /** No path changed. */
    twostate lemma PathsSame()
      requires forall p | p in paths :: unchanged(p)
      ensures Snapshot(paths) == old(Snapshot(paths))
    {
      forall i | 0 <= i < |paths| ensures Snapshot(paths)[i] == old(Snapshot(paths))[i] {
        assert paths[i] in paths;
      }
    }

    lemma SameId(p: HnzPath, q: HnzPath)
      requires Valid() && p in paths && q in paths
      ensures p == q <==> p.id == q.id
    {
    }

    lemma OwnState(path: HnzPath)
      requires Valid() && path in paths
      ensures path.id < |paths| && paths[path.id] == path && Sys().paths[path.id] == path.State()
      ensures path.conf == cfg.paths[path.id] && HnzSystem.WellSized(cfg, Sys())
    {
    }

    // -------------------------------------------------------------- arbiter

    method UpdateConnectionStatus(status: ConnectionStatus)
      requires Valid()
      modifies this, fledge
      ensures Valid() && Sys() == HnzSystem.UpdateConnectionStatus(old(Sys()), status)
      ensures unchanged(`active) && unchanged(`first)
    {
      NoteStatus(status);
      if status == NotConnected {
        RequestInit();
      }
    }

    method NoteStatus(status: ConnectionStatus)
      requires Valid()
      modifies fledge
      ensures Valid() && Sys() == old(Sys()).(fledge := old(Sys()).fledge.(connStatus := status))
    {
      fledge.UpdateConnectionStatus(status);
      PathsSame();
    }

    method RequestInit()
      requires Valid()
      modifies this`sendInit
      ensures Valid() && Sys() == old(Sys()).(sendInit := true)
    {
      sendInit := true;
      PathsSame();
    }

    method SetConnectionState(path: HnzPath, state: ConnectionState)
      requires Valid() && path in paths
      modifies path
      ensures path.id < |paths|
      ensures Sys() == HnzSystem.SetConnectionState(old(Sys()), path.id, state)
      ensures path.State() == old(path.State()).(conn := state)
    {
      OwnState(path);
      if state != path.conn {
        path.conn := state;
      }
      PathChanged(path);
    }

    /** A path becomes the active one. */
    method Activate(path: HnzPath)
      requires Valid() && path in paths
      modifies this, fledge, path
      ensures Valid() && path.id < |paths|
      ensures Sys() == HnzSystem.UpdateConnectionStatus(
                         HnzSystem.SetConnectionState(old(Sys()).(active := Some(path.id)), path.id, Active), Started)
    {
      OwnState(path);
      active := path;
      assert Sys() == old(Sys()).(active := Some(path.id));
      SetConnectionState(path, Active);
      UpdateConnectionStatus(Started);
    }

    method TryActivateOtherPath(path: HnzPath) returns (found: bool)
      requires Valid() && path in paths
      modifies this, fledge, paths
      ensures Valid()
      ensures found ==> Sys() == HnzSystem.TryActivateOther(old(Sys()), path.id)
      ensures !found ==>
                && Sys() == old(Sys())
                && HnzSystem.TryActivateOther(Sys(), path.id) == HnzSystem.UpdateConnectionStatus(Sys(), NotConnected)
    {
      if !running {
        return false;
      }
      var other := FindPassivePath(path);
      if other != null {
        FoundPassive(Sys(), path.id, other.id);
        Activate(other);
      }
      return other != null;
    }

    /** The search loop of tryActivateOtherPath. */
    method FindPassivePath(path: HnzPath) returns (other: HnzPath?)
      requires Valid() && path in paths
      ensures other != null ==> other in paths && other.id < |paths|
      ensures HnzSystem.FirstPassive(Sys().paths, path.id, 0) == Id(other)
    {
      OwnState(path);
      var j := 0;
      while j < |paths|
        invariant 0 <= j <= |paths|
        invariant HnzSystem.FirstPassive(Sys().paths, path.id, 0) == HnzSystem.FirstPassive(Sys().paths, path.id, j)
      {
        OwnState(paths[j]);
        if paths[j] != path && paths[j].conn == Passive {
          return paths[j];
        }
        j := j + 1;
      }
      return null;
    }

    /** The memory of the first path whose input opened. */
    method NoteInput(path: HnzPath)
      requires Valid() && path in paths
      modifies this`first
      ensures Valid() && path.id < |paths|
      ensures Sys() == old(Sys()).(first := HnzSystem.NoteInput(old(Sys()), path.id))
    {
      OwnState(path);
      if first != null {
        SameId(first, path);
      }
      if first == null && (path.proto == InputConnected || path.proto == Connected) {
        SetFirst(path);
      } else if first == path && (path.proto == Connection || path.proto == OutputConnected) {
        SetFirst(null);
      }
    }

    method SetFirst(path: HnzPath?)
      requires Valid() && (path != null ==> path in paths)
      modifies this`first
      ensures Valid() && Sys() == old(Sys()).(first := Id(path))
    {
      first := path;
      PathsSame();
    }

    method RequestConnectionState(path: HnzPath, newState: ConnectionState)
      requires Valid() && path in paths
      modifies this, fledge, paths
      ensures Valid() && path.id < |paths|
      ensures Sys() == HnzSystem.Request(old(Sys()), path.id, newState)
    {
      OwnState(path);
      NoteInput(path);
      ghost var s1 := Sys();
      if newState == Active {
        if active == null {
          Activate(path);
        } else {
          SetConnectionState(path, Passive);
        }
      } else {
        SetConnectionState(path, newState);
        if path == active {
          LoseActivePath(path);
        }
      }
    }

    /** The connection on the active path was lost. */
    method LoseActivePath(path: HnzPath)
      requires Valid() && path in paths
      modifies this, fledge, paths
      ensures Valid() && Sys() == HnzSystem.TryActivateOther(HnzSystem.LoseActive(old(Sys())), path.id)
    {
      active := null;
      giRepeat := 0;
      giLog := giLog + [GiLog.ActivePathLost];
      ghost var s := Sys();
      assert s == HnzSystem.LoseActive(old(Sys()));
      var found := TryActivateOtherPath(path);
      if !found {
        assert Sys() == s;
        UpdateConnectionStatus(NotConnected);
      }
      assert Sys() == HnzSystem.TryActivateOther(s, path.id);
    }

    method CanPathExtractMessage(path: HnzPath) returns (ok: bool)
      requires Valid() && path in paths
      ensures ok == HnzSystem.CanExtract(Sys(), path.id)
    {
      if path == active {
        return true;
      }
      return path == first && active == null;
    }

    // -------------------------------------------------------------- protocol automaton

    /** The part of an action that goes through the arbiter. */
    method AskArbiter(path: HnzPath, act: HnzSystem.Act)
      requires Valid() && path in paths
      modifies this, fledge, paths
      ensures Valid() && path.id < |paths|
      ensures Sys() == if HnzSystem.Wanted(act).Some? then
                         HnzSystem.Request(old(Sys()), path.id, HnzSystem.Wanted(act).value)
                       else old(Sys())
    {
      OwnState(path);
      match act {
        case SetConnectionPending => RequestConnectionState(path, PendingHnz);
        case ResolveConnected => RequestConnectionState(path, Active);
        case ResolveConnection => RequestConnectionState(path, Disconnected);
        case _ =>
      }
    }

    /** The part of an action on the variables of the path. */
    static method ActOnPath(path: HnzPath, act: HnzSystem.Act, now: int)
      modifies path
      ensures path.State() == HnzSystem.LinkAct(act, old(path.State()), now)
    {
      match act {
        case SetConnectionPending =>
        case ResetInput => path.ResetInputVariables(now);
        case ResetOutput => path.ResetOutputVariables();
        case StopTcp => path.tcp := false;
        case ResolveConnected => path.lastConnected := now;
        case ResolveConnection =>
          path.ResetInputVariables(now);
          path.ResetOutputVariables();
          path.ResetSarmCounters(now);
          path.lastSarm := 0;
        case ResetSarm => path.ResetSarmCounters(now);
        case Discard => path.DiscardMessages();
      }
    }

    method RunAction(path: HnzPath, act: HnzSystem.Act, now: int)
      requires Valid() && path in paths
      modifies this, fledge, paths
      ensures Valid() && path.id < |paths|
      ensures Sys() == HnzSystem.DoAct(old(Sys()), path.id, act, now)
    {
      AskArbiter(path, act);
      label asked:
      ActOnPath(path, act, now);
      PathChanged@asked(path);
    }

    method ProtocolStateTransition(path: HnzPath, event: ConnectionEvent, now: int)
      requires Valid() && path in paths
      modifies this, fledge, paths
      ensures Valid() && path.id < |paths|
      ensures Sys() == HnzSystem.ProtocolTransition(old(Sys()), path.id, event, now)
    {
      OwnState(path);
      var row := HnzSystem.Row(path.proto, event);
      if row == None {
        return;
      }
      path.proto := row.value.next;
      PathChanged(path);
      RunActions(path, row.value.actions, now);
    }

    method RunActions(path: HnzPath, acts: seq<HnzSystem.Act>, now: int)
      requires Valid() && path in paths
      modifies this, fledge, paths
      ensures Valid() && path.id < |paths|
      ensures Sys() == HnzSystem.DoActs(old(Sys()), path.id, acts, now)
    {
      OwnState(path);
      ghost var s0 := Sys();
      var k := 0;
      while k < |acts|
        invariant 0 <= k <= |acts| && Valid()
        invariant HnzSystem.DoActs(Sys(), path.id, acts[k..], now) == HnzSystem.DoActs(s0, path.id, acts, now)
      {
        assert acts[k..][1..] == acts[k + 1..] && acts[k..][0] == acts[k];
        RunAction(path, acts[k], now);
        k := k + 1;
      }
    }

    method Disconnect(path: HnzPath, now: int)
      requires Valid() && path in paths
      modifies this, fledge, paths
      ensures Valid() && path.id < |paths| && HnzSystem.Concerns(old(Sys()), HnzSystem.Disconnect(path.id, now))
      ensures var s1 := HnzSystem.ProtocolTransition(old(Sys()), path.id, TcpCnxLost, now);
              Sys() == HnzSystem.SetPath(s1, path.id, s1.paths[path.id].(tcp := false))
    {
      ProtocolStateTransition(path, TcpCnxLost, now);
      StopTcp(path);
    }

    method StopTcp(path: HnzPath)
      requires Valid() && path in paths
      modifies path
      ensures Valid() && path.id < |paths|
      ensures Sys() == HnzSystem.SetPath(old(Sys()), path.id, old(Sys()).paths[path.id].(tcp := false))
    {
      OwnState(path);
      path.tcp := false;
      PathChanged(path);
    }

    // -------------------------------------------------------------- General Interrogation

    lemma Sized()
      requires Valid()
      ensures HnzSystem.WellSized(cfg, Sys())
      ensures active != null ==> active.id < |paths| && paths[active.id] == active
    {
    }

    method NotifyGiSent(now: int)
      requires Valid()
      modifies this, fledge
      ensures Valid() && Sys() == HnzSystem.NotifyGiSent(old(Sys()), now)
      ensures active == old(active)
    {
      MarkGiStarted();
      CountGi(now);
    }

    method MarkGiStarted()
      requires Valid()
      modifies fledge
      ensures Valid()
      ensures var s := old(Sys());
              Sys() == if s.giRepeat == 0 || s.fledge.giStatus != GiInProgress
                       then s.(fledge := s.fledge.(giStatus := GiStarted)) else s
    {
      if giRepeat == 0 || fledge.giStatus != GiInProgress {
        fledge.UpdateGiStatus(GiStarted);
        PathsSame();
      }
    }

    method CountGi(now: int)
      requires Valid()
      modifies this`giRepeat, this`giStart
      ensures Valid() && Sys() == old(Sys()).(giRepeat := old(giRepeat) + 1, giStart := now)
    {
      giRepeat := giRepeat + 1;
      giStart := now;
    }

    method SendGeneralInterrogation(path: HnzPath, now: int)
      requires Valid() && path in paths
      modifies this, fledge, paths
      ensures Valid() && path.id < |paths| && HnzSystem.WellSized(cfg, old(Sys()))
      ensures Sys() == HnzSystem.SendGeneralInterrogation(cfg, old(Sys()), path.id, now)
      ensures active == old(active)
    {
      OwnState(path);
      ghost var accepted := Link.MaySend(path.conf, path.proto, HnzSystem.GI_REQUEST);
      var wasSent := path.SendInfo(HnzSystem.GI_REQUEST, now);
      PathChanged(path);
      if accepted {
        NoteGi(GiLog.Requested(wasSent));
      }
      if wasSent {
        NotifyGiSent(now);
      }
    }

    /** The history of the GI goes on. */
    ghost method NoteGi(mark: GiLog.GiMark)
      requires Valid()
      modifies this`giLog
      ensures Valid() && Sys() == old(Sys()).(giLog := old(giLog) + [mark])
    {
      giLog := giLog + [mark];
      PathsSame();
    }

    /** GICompleted up to the delayed GI. */
    method CloseGi(success: bool)
      requires Valid()
      modifies this, fledge
      ensures Valid() && Sys() == HnzSystem.CloseGi(cfg, old(Sys()), success)
      ensures active == old(active)
    {
      giRepeat := 0;
      giLog := giLog + [GiLog.GiEnded(GiResult.Unfiltered(cfg.tsAddresses, fledge.giReceived))];
      fledge.CloseGi(success);
      PathsSame();
    }

    method GiCompleted(success: bool, now: int)
      requires Valid()
      modifies this, fledge, paths
      ensures Valid() && HnzSystem.WellSized(cfg, old(Sys()))
      ensures Sys() == HnzSystem.GiCompleted(cfg, old(Sys()), success, now)
    {
      Sized();
      CloseGi(success);
      if fledge.giInQueue {
        if active == null {
          ghost var s := Sys();
          crashed := true;
          assert Sys() == s.(crashed := true);
          return;
        }
        Sized();
        SendDelayedGi(active, now);
      }
    }

    method SendDelayedGi(path: HnzPath, now: int)
      requires Valid() && path in paths
      modifies this, fledge, paths
      ensures Valid() && path.id < |paths| && HnzSystem.WellSized(cfg, old(Sys()))
      ensures var s := HnzSystem.SendGeneralInterrogation(cfg, old(Sys()), path.id, now);
              Sys() == s.(fledge := s.fledge.(giInQueue := false))
    {
      SendGeneralInterrogation(path, now);
      SetGiInQueue(false);
    }

    method SetGiInQueue(value: bool)
      requires Valid()
      modifies fledge`giInQueue
      ensures Valid() && Sys() == old(Sys()).(fledge := old(Sys()).fledge.(giInQueue := value))
    {
      fledge.giInQueue := value;
      PathsSame();
    }

    method SetDaySection(section: Byte)
      requires Valid()
      modifies fledge`daySection
      ensures Valid() && Sys() == old(Sys()).(fledge := old(Sys()).fledge.(daySection := section))
    {
      fledge.daySection := section;
      PathsSame();
    }

    method ForgetReceived()
      requires Valid()
      modifies this`giLog, fledge
      ensures Valid() && Sys() == HnzSystem.ForgetReceived(old(Sys()))
    {
      fledge.ResetGIQueue();
      giLog := giLog + [GiLog.ListCleared];
      PathsSame();
    }

    method CheckGiCompleted(success: bool, now: int)
      requires Valid()
      modifies this, fledge, paths
      ensures Valid() && HnzSystem.WellSized(cfg, old(Sys()))
      ensures Sys() == HnzSystem.CheckGiCompleted(cfg, old(Sys()), success, now)
    {
      Sized();
      if success {
        GiCompleted(true, now);
        return;
      }
      if giRepeat > cfg.giRepeatMax {
        GiCompleted(false, now);
      } else {
        ForgetReceived();
        if active == null {
          return;
        }
        Sized();
        SendGeneralInterrogation(active, now);
      }
    }

    /** Request of a GI, by a triggering TS or by the north service. */
    method RequestGi(now: int)
      requires Valid()
      modifies this, fledge, paths
      ensures Valid() && HnzSystem.WellSized(cfg, old(Sys()))
      ensures Sys() == HnzSystem.RequestGi(cfg, old(Sys()), now)
    {
      Sized();
      if active == null {
        return;
      }
      if fledge.giStatus == GiStarted || fledge.giStatus == GiInProgress {
        SetGiInQueue(true);
      } else {
        SendGeneralInterrogation(active, now);
      }
    }

    /** First part of m_check_GI. */
    method CheckGiTimeout(current: nat, now: int)
      requires Valid()
      modifies this, fledge, paths
      ensures Valid() && HnzSystem.WellSized(cfg, old(Sys()))
      ensures Sys() == HnzSystem.CheckGiTimeout(cfg, old(Sys()), current, now)
    {
      Sized();
      if giRepeat != 0 {
        if giStart + cfg.giTimeMax < current {
          CheckGiCompleted(false, now);
        }
      }
    }

    /** Detection of a new day. */
    method NewDay(current: nat)
      requires Valid()
      modifies this`scheduleAlreadySent, this`scheduledTime, this`day
      ensures Valid()
      ensures Sys() == old(Sys()).(sched := HnzSystem.NewDay(cfg.schedule, old(Sys()).sched, current))
    {
      if day != current / DAY_MS {
        scheduleAlreadySent := false;
        scheduledTime := current - current % DAY_MS + (cfg.schedule.hour * 60 + cfg.schedule.min) * 60000;
        day := current / DAY_MS;
      }
      PathsSame();
    }

    method CheckGi(current: nat, now: int)
      requires Valid()
      modifies this, fledge, paths
      ensures Valid() && HnzSystem.WellSized(cfg, old(Sys()))
      ensures Sys() == HnzSystem.CheckGi(cfg, old(Sys()), current, now)
    {
      Sized();
      CheckGiTimeout(current, now);
      if crashed {
        return;
      }
      NewDay(current);
      ghost var s2 := Sys();
      Sized();
      if cfg.schedule.active && !scheduleAlreadySent && scheduledTime <= current {
        assert HnzSystem.SlotReached(cfg.schedule, s2.sched, current);
        SendScheduledGi(now);
      }
    }

    method SendScheduledGi(now: int)
      requires Valid()
      modifies this, fledge, paths
      ensures Valid() && HnzSystem.WellSized(cfg, old(Sys()))
      ensures var s := if old(Sys()).active == None then old(Sys())
                       else HnzSystem.SendGeneralInterrogation(cfg, old(Sys()), old(Sys()).active.value, now);
              Sys() == s.(sched := s.sched.(alreadySent := true))
    {
      Sized();
      if active != null {
        SendGeneralInterrogation(active, now);
      }
      label sent:
      scheduleAlreadySent := true;
      PathsSame@sent();
    }

    // -------------------------------------------------------------- messages

    method AckAll(kind: CommandKind, addr: int)
      requires Valid()
      modifies paths
      ensures Valid() && Sys() == old(Sys()).(paths := HnzSystem.AckAll(old(Sys()).paths, kind, addr))
    {
      var j := 0;
      while j < |paths|
        invariant 0 <= j <= |paths|
        invariant forall i | 0 <= i < j ::
                    paths[i].State() == old(paths[i].State()).(
                      commands := Commands.Unacknowledged(old(paths[i].commands), kind, addr))
        invariant forall i | j <= i < |paths| :: paths[i].State() == old(paths[i].State())
      {
        assert forall i | 0 <= i < |paths| && i != j :: paths[i] != paths[j];
        paths[j].ReceivedCommandACK(kind, addr);
        j := j + 1;
      }
      assert Snapshot(paths) == HnzSystem.AckAll(old(Sys()).paths, kind, addr);
    }

    method HandleTsce(m: Payload, now: int)
      requires Valid() && |m| == 5
      modifies this, fledge, paths
      ensures Valid() && HnzSystem.WellSized(cfg, old(Sys()))
      ensures Sys() == HnzSystem.HandleTsce(cfg, old(Sys()), m, now)
    {
      Sized();
      var address := Commands.JoinedAddress(m[1], m[2]);
      if address !in cfg.tsAddresses {
        return;
      }
      var value := m[2] / 8 % 2;
      var triggering := if address in cfg.triggers then cfg.triggers[address] else -1;
      if triggering != -1 {
        if value == triggering {
          RequestGi(now);
        }
      }
    }

    method HandleTscg(m: Payload, now: int)
      requires Valid() && |m| == 6
      modifies this, fledge, paths
      ensures Valid() && HnzSystem.WellSized(cfg, old(Sys()))
      ensures Sys() == HnzSystem.HandleTscg(cfg, old(Sys()), m, now)
    {
      Sized();
      NoteReceived(m[1]);
      Sized();
      if fledge.giReceived != [] && fledge.giReceived[|fledge.giReceived| - 1] == cfg.lastTsAddress {
        CheckGiCompleted(true, now);
      }
    }

    /** The addresses of a TSCG are noted; a started GI is then in progress. */
    method NoteReceived(ado: Byte)
      requires Valid()
      modifies this`giLog, fledge
      ensures Valid() && Sys() == HnzSystem.NoteTscg(cfg, old(Sys()), ado)
    {
      fledge.HandleTSCG(ado);
      giLog := giLog + [GiLog.Brought(ado)];
      PathsSame();
    }

    method HandleMessage(m: Payload, now: int)
      requires Valid() && HnzSystem.WholeMessage(m)
      modifies this, fledge, paths
      ensures Valid() && HnzSystem.WellSized(cfg, old(Sys()))
      ensures Sys() == HnzSystem.HandleMessage(cfg, old(Sys()), m, now)
    {
      Sized();
      if m[0] == Messages.MODULO_CODE {
        SetDaySection(m[1]);
      } else if m[0] == Messages.TSCE_CODE {
        HandleTsce(m, now);
      } else if m[0] == Messages.TSCG_CODE {
        HandleTscg(m, now);
      } else if m[0] == Messages.TCACK_CODE {
        AckAll(TC, Commands.JoinedAddress(m[1], m[2]));
      } else if m[0] == Messages.TVCACK_CODE {
        AckAll(TVC, m[1] % 32);
      }
    }

    /** The loop of HNZ::receive over the messages of a frame. */
    method HandleMessages(ms: seq<Payload>, now: int)
      requires Valid() && forall m | m in ms :: HnzSystem.WholeMessage(m)
      modifies this, fledge, paths
      ensures Valid() && HnzSystem.WellSized(cfg, old(Sys()))
      ensures Sys() == HnzSystem.HandleMessages(cfg, old(Sys()), ms, now)
    {
      Sized();
      ghost var s0 := Sys();
      var k := 0;
      while k < |ms| && !crashed
        invariant 0 <= k <= |ms| && Valid() && HnzSystem.WellSized(cfg, Sys())
        invariant forall m | m in ms[k..] :: HnzSystem.WholeMessage(m)
        invariant HnzSystem.HandleMessages(cfg, Sys(), ms[k..], now) == HnzSystem.HandleMessages(cfg, s0, ms, now)
      {
        assert ms[k..][1..] == ms[k + 1..] && ms[k..][0] == ms[k];
        HandleMessage(ms[k], now);
        Sized();
        k := k + 1;
      }
    }

    // -------------------------------------------------------------- frames

    /** m_receivedINFO; the messages it hands up are returned. */
    method ReceivedINFO(path: HnzPath, f: Frame, now: int) returns (messages: seq<Payload>)
      requires Valid() && path in paths
      requires f.INFO? && HnzSystem.Expressible(path.conf, f) && Link.WaitingSendable(path.conf, path.State())
      modifies path
      ensures Valid() && path.id < |paths| && HnzSystem.WellSized(cfg, old(Sys())) && path.conf == cfg.paths[path.id]
      ensures old(Sys()).paths[path.id] == old(path.State())
      ensures (Sys(), messages) == HnzSystem.AnswerInfo(cfg, old(Sys()), path.id, f, now)
    {
      OwnState(path);
      messages := [];
      if path.proto == OutputConnected {
        return;
      }
      ghost var handedUp := HnzSystem.CanExtract(Sys(), path.id);
      messages := ExtractMessages(path, f.payload);
      NoteBulle(path, messages, now);
      var ok := path.SendRR(f.poll, f.ns, f.nr, f.payload, handedUp, now);
      if !ok {
        messages := [];
      }
      PathChanged(path);
    }

    method ExtractMessages(path: HnzPath, p: Payload) returns (messages: seq<Payload>)
      requires Valid() && path in paths && Messages.Uncut(path.conf.bulleReceive, p)
      ensures path.id < |paths| && HnzSystem.WellSized(cfg, Sys()) && path.conf == cfg.paths[path.id]
      ensures messages == HnzSystem.Extracted(cfg, Sys(), path.id, p)
    {
      OwnState(path);
      var extract := CanPathExtractMessage(path);
      messages := if extract then Messages.Extract(path.conf.bulleReceive, p) else [];
    }

    /** m_receivedBULLE, for the BULLEs among the messages. */
    static method NoteBulle(path: HnzPath, messages: seq<Payload>, now: int)
      modifies path
      ensures path.State() == HnzSystem.NoteBulle(path.conf, old(path.State()), messages, now)
    {
      if exists m :: m in messages && Messages.StartsWithBulle(path.conf.bulleReceive, m) {
        path.lastMsg := now;
      }
    }

    method AnalyzeFrame(path: HnzPath, f: Frame, now: int)
      requires Valid() && path in paths
      requires HnzSystem.Expressible(path.conf, f) && Link.WaitingSendable(path.conf, path.State())
      modifies this, fledge, paths
      ensures Valid() && path.id < |paths| && HnzSystem.WellSized(cfg, old(Sys())) && path.conf == cfg.paths[path.id]
      ensures old(Sys()).paths[path.id] == old(path.State())
      ensures Sys() == HnzSystem.FrameReceived(cfg, old(Sys()), path.id, f, now)
    {
      OwnState(path);
      match f {
        case UA => ProtocolStateTransition(path, ReceivedUa, now);
        case SARM => ReceivedSARM(path, now);
        case INFO(_, _, _, _) =>
          if path.proto != Connection {
            var messages := ReceivedINFO(path, f, now);
            HandleMessages(messages, now);
          }
        case RR(nr, final) =>
          if path.proto != Connection {
            var _ := path.ReceivedRR(nr, final, now);
            PathChanged(path);
          }
      }
    }

    method ReceivedSARM(path: HnzPath, now: int)
      requires Valid() && path in paths
      modifies this, fledge, paths
      ensures Valid() && path.id < |paths| && HnzSystem.WellSized(cfg, old(Sys()))
      ensures Sys() == HnzSystem.ReceivedSarmFrame(cfg, old(Sys()), path.id, now)
    {
      OwnState(path);
      path.SendUA(now);
      PathChanged(path);
      if now - path.lastConnected > path.conf.repeatTimeout {
        ProtocolStateTransition(path, ReceivedSarm, now);
      }
    }

    // -------------------------------------------------------------- timers

    /** m_manageHNZProtocolState, without the time to sleep it returns. */
    method ManageProtocolState(path: HnzPath, now: int)
      requires Valid() && path in paths
      modifies this, fledge, paths
      ensures Valid() && path.id < |paths| && HnzSystem.WellSized(cfg, old(Sys()))
      ensures Sys() == HnzSystem.ManageProtocolState(cfg, old(Sys()), path.id, now)
    {
      OwnState(path);
      if path.proto == Connection || path.proto == InputConnected {
        if now - path.lastMsg <= path.conf.inaccTimeout * 1000 {
          if now - path.lastSarm < path.conf.repeatTimeout {
            return;
          }
          SarmTurn(path, now);
        } else {
          ProtocolStateTransition(path, ToRecv, now);
        }
      } else {
        var silent := now - path.lastMsg > path.conf.inaccTimeout * 1000;
        SendDueBulle(path, now);
        OwnState(path);
        if silent && path.proto == Connected {
          ProtocolStateTransition(path, ToRecv, now);
        }
      }
    }

    method SarmTurn(path: HnzPath, now: int)
      requires Valid() && path in paths
      modifies this, fledge, paths
      ensures Valid() && path.id < |paths| && HnzSystem.WellSized(cfg, old(Sys()))
      ensures Sys() == HnzSystem.SarmTurn(cfg, old(Sys()), path.id, now)
    {
      OwnState(path);
      if path.sarmSent == path.conf.maxSarm {
        ProtocolStateTransition(path, MaxSarmSent, now);
      }
      OwnState(path);
      label asked:
      path.SendSARM(now);
      PathChanged@asked(path);
    }

    method SendDueBulle(path: HnzPath, now: int)
      requires Valid() && path in paths
      modifies path
      ensures Valid() && path.id < |paths| && path.conf == cfg.paths[path.id]
      ensures path.State() == HnzSystem.SendDueBulle(path.conf, old(path.State()), now)
      ensures Sys() == HnzSystem.SetPath(old(Sys()), path.id, path.State())
      ensures path.proto == old(path.proto)
    {
      OwnState(path);
      if now - path.lastMsgSent >= path.conf.bulleTime * 1000 {
        var _ := path.SendInfo([path.conf.bulleSend.0, path.conf.bulleSend.1], now);
      }
      PathChanged(path);
    }

    /** m_check_timer: acknowledgement of messages, then init messages. */
    method CheckTimer(path: HnzPath, current: nat, cal: HnzSystem.Calendar, now: int)
      requires Valid() && path in paths
      modifies this, fledge, paths
      ensures Valid() && path.id < |paths| && HnzSystem.WellSized(cfg, old(Sys()))
      ensures Sys() == HnzSystem.CheckInit(cfg, HnzSystem.CheckRepeat(cfg, old(Sys()), path.id, current, now),
                                           path.id, cal, now)
    {
      OwnState(path);
      CheckRepeat(path, current, now);
      CheckInit(path, cal, now);
    }

    method CheckRepeat(path: HnzPath, current: nat, now: int)
      requires Valid() && path in paths
      modifies this, fledge, paths
      ensures Valid() && path.id < |paths| && HnzSystem.WellSized(cfg, old(Sys()))
      ensures Sys() == HnzSystem.CheckRepeat(cfg, old(Sys()), path.id, current, now)
    {
      OwnState(path);
      if path.sent != [] && path.tcp {
        if path.lastSent + cfg.repeatTimeout < current {
          if path.repeat >= path.conf.repeatMax {
            ProtocolStateTransition(path, MaxSend, now);
          } else {
            path.SendBackInfo(now);
            path.Requeue();
            PathChanged(path);
          }
        }
      }
    }

    method CheckInit(path: HnzPath, cal: HnzSystem.Calendar, now: int)
      requires Valid() && path in paths
      modifies this, fledge, paths
      ensures Valid() && path.id < |paths| && HnzSystem.WellSized(cfg, old(Sys()))
      ensures Sys() == HnzSystem.CheckInit(cfg, old(Sys()), path.id, cal, now)
    {
      OwnState(path);
      if path.proto == Connected && path.lastConnected > 0 && now - path.lastConnected >= cfg.repeatTimeout {
        if path.conn == Active && sendInit {
          SendInitOnce(path, cal, now);
        } else {
          ResetLastConnected(path);
        }
      }
    }

    method SendInitOnce(path: HnzPath, cal: HnzSystem.Calendar, now: int)
      requires Valid() && path in paths
      modifies this, fledge, paths
      ensures Valid() && path.id < |paths| && HnzSystem.WellSized(cfg, old(Sys()))
      ensures Sys() == HnzSystem.SendInitMessages(cfg, old(Sys()), path.id, cal, now).(sendInit := false)
    {
      SendInitMessages(path, cal, now);
      InitSent();
    }

    method InitSent()
      requires Valid()
      modifies this`sendInit
      ensures Valid() && Sys() == old(Sys()).(sendInit := false)
    {
      sendInit := false;
    }

    method SendInitMessages(path: HnzPath, cal: HnzSystem.Calendar, now: int)
      requires Valid() && path in paths
      modifies this, fledge, paths
      ensures Valid() && path.id < |paths| && HnzSystem.WellSized(cfg, old(Sys()))
      ensures Sys() == HnzSystem.SendInitMessages(cfg, old(Sys()), path.id, cal, now)
    {
      OwnState(path);
      SendDate(path, cal, now);
      SendTime(path, cal, now);
      SendGeneralInterrogation(path, now);
      ResetLastConnected(path);
    }

    method ResetLastConnected(path: HnzPath)
      requires Valid() && path in paths
      modifies path
      ensures Valid() && path.id < |paths|
      ensures Sys() == HnzSystem.SetPath(old(Sys()), path.id, old(Sys()).paths[path.id].(lastConnected := 0))
    {
      OwnState(path);
      path.lastConnected := 0;
      PathChanged(path);
    }

    method SendDate(path: HnzPath, cal: HnzSystem.Calendar, now: int)
      requires Valid() && path in paths
      modifies path
      ensures Valid() && path.id < |paths| && HnzSystem.WellSized(cfg, old(Sys()))
      ensures Sys() == HnzSystem.SendDate(cfg, old(Sys()), path.id, cal, now)
    {
      SendOn(path, HnzSystem.DateMessage(cal), now);
    }

    method SendTime(path: HnzPath, cal: HnzSystem.Calendar, now: int)
      requires Valid() && path in paths
      modifies path, fledge
      ensures Valid() && path.id < |paths| && HnzSystem.WellSized(cfg, old(Sys()))
      ensures Sys() == HnzSystem.SendTime(cfg, old(Sys()), path.id, cal, now)
    {
      SendOn(path, HnzSystem.TimeMessage(cal, now), now);
      SetDaySection(cal.section);
    }

    method SendOn(path: HnzPath, m: Payload, now: int)
      requires Valid() && path in paths
      modifies path
      ensures Valid() && path.id < |paths| && HnzSystem.WellSized(cfg, old(Sys()))
      ensures Sys() == HnzSystem.SetPath(old(Sys()), path.id,
                                         Link.SendInfo(cfg.paths[path.id], old(Sys()).paths[path.id], m, now).state)
    {
      OwnState(path);
      var _ := path.SendInfo(m, now);
      PathChanged(path);
    }

    method CheckCommandTimer(path: HnzPath, current: nat)
      requires Valid() && path in paths
      modifies path
      ensures Valid() && path.id < |paths|
      ensures Sys() == HnzSystem.CheckCommandTimer(old(Sys()), path.id, current)
    {
      OwnState(path);
      path.ExpireCommands(current);
      PathChanged(path);
    }

    // -------------------------------------------------------------- operations

    /** The TC branch of processCommandOperation; true when the command went out. */
    method SendTc(address: int, value: Byte, now: int) returns (ok: bool)
      requires Valid()
      modifies paths
      ensures Valid() && HnzSystem.WellSized(cfg, old(Sys()))
      ensures Sys() == HnzSystem.SendTcCommand(cfg, old(Sys()), address, value, now)
      ensures ok == WentOut(cfg, old(Sys()), Commands.TcPayload(address, value), now)
    {
      Sized();
      if active == null {
        return false;
      }
      OwnState(active);
      ok := active.SendTCCommand(address, value, now);
      PathChanged(active);
    }

    method SendTvc(address: Byte, value: int, now: int) returns (ok: bool)
      requires Valid()
      modifies paths
      ensures Valid() && HnzSystem.WellSized(cfg, old(Sys()))
      ensures Sys() == HnzSystem.SendTvcCommand(cfg, old(Sys()), address, value, now)
      ensures ok == WentOut(cfg, old(Sys()), Commands.TvcPayload(address, value), now)
    {
      Sized();
      if active == null {
        return false;
      }
      OwnState(active);
      ok := active.SendTVCCommand(address, value, now);
      PathChanged(active);
    }

    // -------------------------------------------------------------- events

    method TcpConnected(path: HnzPath, now: int)
      requires Valid() && path in paths
      modifies path
      ensures Valid() && path.id < |paths|
      ensures Sys() == HnzSystem.SetPath(old(Sys()), path.id,
                                         old(Sys()).paths[path.id].(lastMsg := now, lastMsgSent := now, tcp := true))
    {
      OwnState(path);
      path.lastMsg := now;
      path.lastMsgSent := now;
      path.tcp := true;
      PathChanged(path);
    }

    method Stop()
      requires Valid()
      modifies this`running
      ensures Valid() && Sys() == old(Sys()).(running := false)
    {
      running := false;
    }

    /** One event of the threads, whatever it is: the objects do what the state machine says. */
    method Dispatch(e: HnzSystem.Event)
      requires Valid() && HnzSystem.Ready(cfg, Sys())
      modifies this, fledge, paths
      ensures Valid() && Sys() == HnzSystem.Step(cfg, old(Sys()), e)
    {
      Sized();
      if crashed {
        return;
      }
      match e {
        case Connect(_, _) => DispatchConnection(e);
        case TcpLost(_) => DispatchConnection(e);
        case Disconnect(_, _) => DispatchConnection(e);
        case Stop => Stop();
        case Receive(i, f, now) =>
          if i < |paths| {
            DispatchFrame(i, f, now);
          }
        case Manage(_, _) => DispatchLink(e);
        case Repeat(_, _, _) => DispatchLink(e);
        case Init(_, _, _) => DispatchCheck(e);
        case ExpireCommands(_, _) => DispatchCheck(e);
        case GiTurn(current, now) => DispatchTurn(current, now);
        case TcCommand(_, _, _) => DispatchCommand(e);
        case TvcCommand(_, _, _) => DispatchCommand(e);
        case GiRequest(now) => DispatchRequest(now);
      }
    }

    method DispatchTurn(current: nat, now: int)
      requires Valid() && !crashed && HnzSystem.Ready(cfg, Sys())
      modifies this, fledge, paths
      ensures Valid() && Sys() == HnzSystem.Step(cfg, old(Sys()), HnzSystem.GiTurn(current, now))
    {
      StepOf(cfg, Sys(), HnzSystem.GiTurn(current, now));
      CheckGi(current, now);
    }

    method DispatchRequest(now: int)
      requires Valid() && !crashed && HnzSystem.Ready(cfg, Sys())
      modifies this, fledge, paths
      ensures Valid() && Sys() == HnzSystem.Step(cfg, old(Sys()), HnzSystem.GiRequest(now))
    {
      StepOf(cfg, Sys(), HnzSystem.GiRequest(now));
      RequestGi(now);
    }

    method DispatchCommand(e: HnzSystem.Event)
      requires Valid() && !crashed && HnzSystem.Ready(cfg, Sys())
      requires e.TcCommand? || e.TvcCommand?
      modifies this, fledge, paths
      ensures Valid() && Sys() == HnzSystem.Step(cfg, old(Sys()), e)
    {
      StepOf(cfg, Sys(), e);
      match e {
        case TcCommand(address, value, now) => var _ := SendTc(address, value, now);
        case TvcCommand(address, value, now) => var _ := SendTvc(address, value, now);
      }
    }

    method DispatchConnection(e: HnzSystem.Event)
      requires Valid() && !crashed && HnzSystem.Ready(cfg, Sys())
      requires e.Connect? || e.TcpLost? || e.Disconnect?
      modifies this, fledge, paths
      ensures Valid() && Sys() == HnzSystem.Step(cfg, old(Sys()), e)
    {
      if e.i >= |paths| {
        return;
      }
      OwnState(paths[e.i]);
      StepOf(cfg, Sys(), e);
      match e {
        case Connect(i, now) => TcpConnected(paths[i], now);
        case TcpLost(i) => StopTcp(paths[i]);
        case Disconnect(i, now) => Disconnect(paths[i], now);
      }
    }

    method DispatchLink(e: HnzSystem.Event)
      requires Valid() && !crashed && HnzSystem.Ready(cfg, Sys())
      requires e.Manage? || e.Repeat?
      modifies this, fledge, paths
      ensures Valid() && Sys() == HnzSystem.Step(cfg, old(Sys()), e)
    {
      if e.i >= |paths| {
        return;
      }
      OwnState(paths[e.i]);
      StepOf(cfg, Sys(), e);
      match e {
        case Manage(i, now) => ManageProtocolState(paths[i], now);
        case Repeat(i, current, now) => CheckRepeat(paths[i], current, now);
      }
    }

    method DispatchCheck(e: HnzSystem.Event)
      requires Valid() && !crashed && HnzSystem.Ready(cfg, Sys())
      requires e.Init? || e.ExpireCommands?
      modifies this, fledge, paths
      ensures Valid() && Sys() == HnzSystem.Step(cfg, old(Sys()), e)
    {
      if e.i >= |paths| {
        return;
      }
      OwnState(paths[e.i]);
      StepOf(cfg, Sys(), e);
      match e {
        case Init(i, cal, now) => CheckInit(paths[i], cal, now);
        case ExpireCommands(i, current) => CheckCommandTimer(paths[i], current);
      }
    }

    method DispatchFrame(i: nat, f: Frame, now: int)
      requires Valid() && !crashed && i < |paths| && HnzSystem.Ready(cfg, Sys())
      modifies this, fledge, paths
      ensures Valid() && Sys() == HnzSystem.Step(cfg, old(Sys()), HnzSystem.Receive(i, f, now))
    {
      OwnState(paths[i]);
      FrameStep(cfg, Sys(), i, f, now);
      if HnzSystem.Expressible(cfg.paths[i], f) {
        AnalyzeFrame(paths[i], f, now);
      }
    }

    /** Events one after the other, from a reached state on: the objects stay in reached states, so what is
        proved about those is true of them. */
    method DispatchAll(ghost current: nat, ghost now: int, ghost before: seq<HnzSystem.Event>, evs: seq<HnzSystem.Event>)
      requires Valid() && Sys() == Theorems.Reached(cfg, current, now, before)
      modifies this, fledge, paths
      ensures Valid() && Sys() == Theorems.Reached(cfg, current, now, before + evs)
    {
      var k := 0;
      assert before + evs[..0] == before;
      while k < |evs|
        invariant 0 <= k <= |evs| && Valid()
        invariant Sys() == Theorems.Reached(cfg, current, now, before + evs[..k])
      {
        ReachedNext(cfg, current, now, before, evs, k);
        ReachedIsReady(cfg, current, now, before + evs[..k]);
        Dispatch(evs[k]);
        k := k + 1;
      }
      assert evs[..k] == evs;
    }
  }
}
