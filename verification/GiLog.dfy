/** What happened to the General Interrogation, in order, and what follows from it: how many requests are
    counted, which addresses the last request brought, which ones were there before it. */
module GiLog {
  import opened HnzTypes
  import GiResult

  datatype GiMark =
    | Requested(sent: bool)                 // a request was handed to the link layer: sent at once, or delayed
    | Brought(block: Byte)                  // a TSCG that starts at this block was handled
    | ListCleared                           // the received addresses were dropped for a repetition
    | GiEnded(invalidated: seq<nat>)        // completed or failed; the addresses then sent as invalid
    | ActivePathLost

  /** Requests reported sent since the last end of a GI or loss of the active path. */
  function SentSince(log: seq<GiMark>): nat {
    if log == [] then 0
    else
      var init := log[..|log| - 1];
      match log[|log| - 1]
      case Requested(sent) => SentSince(init) + (if sent then 1 else 0)
      case Brought(_) => SentSince(init)
      case ListCleared => SentSince(init)
      case GiEnded(_) => 0
      case ActivePathLost => 0
  }

  /** The list of received addresses: it is emptied by a repetition and by the end of a GI only. */
  function ReceivedBy(configured: seq<nat>, log: seq<GiMark>): (r: seq<nat>)
    ensures forall a | a in r :: a in configured
  {
    if log == [] then []
    else
      var init := log[..|log| - 1];
      match log[|log| - 1]
      case Brought(block) => ReceivedBy(configured, init) + GiResult.TscgReceived(configured, block)
      case ListCleared => []
      case GiEnded(_) => []
      case _ => ReceivedBy(configured, init)
  }

  /** A request was handed over and neither ended nor made way for a repetition. */
  predicate InAttempt(log: seq<GiMark>) {
    log != [] &&
    match log[|log| - 1]
    case Requested(_) => true
    case Brought(_) => InAttempt(log[..|log| - 1])
    case ActivePathLost => InAttempt(log[..|log| - 1])
    case _ => false
  }

  /** The addresses that were in the list when the last request was handed over. */
  function Stale(configured: seq<nat>, log: seq<GiMark>): seq<nat>
    requires InAttempt(log)
  {
    var init := log[..|log| - 1];
    if log[|log| - 1].Requested? then ReceivedBy(configured, init) else Stale(configured, init)
  }

  /** The addresses the last request brought, ends of a GI in between or not; all there were, as long as none
      was made. */
  function BroughtSince(configured: seq<nat>, log: seq<GiMark>): (r: seq<nat>)
    ensures forall a | a in r :: a in configured
  {
    if log == [] then []
    else
      var init := log[..|log| - 1];
      match log[|log| - 1]
      case Requested(_) => []
      case Brought(block) => BroughtSince(configured, init) + GiResult.TscgReceived(configured, block)
      case _ => BroughtSince(configured, init)
  }

  /** What the last request had brought when the list was emptied after it. */
  function Dropped(configured: seq<nat>, log: seq<GiMark>): seq<nat>
    requires !InAttempt(log)
  {
    if log == [] then []
    else
      var init := log[..|log| - 1];
      if log[|log| - 1].GiEnded? || log[|log| - 1].ListCleared? then BroughtSince(configured, init)
      else Dropped(configured, init)
  }

  /** With a request since the list was last emptied, the list is what was there and what the request brought. */
  lemma {:induction false} ListIsStaleAndBrought(configured: seq<nat>, log: seq<GiMark>)
    requires InAttempt(log)
    ensures ReceivedBy(configured, log) == Stale(configured, log) + BroughtSince(configured, log)
    decreases |log|
  {
    if !log[|log| - 1].Requested? {
      ListIsStaleAndBrought(configured, log[..|log| - 1]);
    }
  }

  /** Without one, the list is what the last request brought since then. */
  lemma {:induction false} ListIsAfterDropped(configured: seq<nat>, log: seq<GiMark>)
    requires !InAttempt(log)
    ensures BroughtSince(configured, log) == Dropped(configured, log) + ReceivedBy(configured, log)
    decreases |log|
  {
    if log != [] && (log[|log| - 1].Brought? || log[|log| - 1].ActivePathLost?) {
      ListIsAfterDropped(configured, log[..|log| - 1]);
    }
  }

  /** What the supervisor reports if the GI ends now. */
  function Reported(configured: seq<nat>, log: seq<GiMark>): seq<nat> {
    GiResult.Unfiltered(configured, ReceivedBy(configured, log))
  }

  /** The report is what the last request deserves: the configured addresses it did not bring. */
  ghost predicate Exact(configured: seq<nat>, log: seq<GiMark>) {
    forall a :: a in Reported(configured, log) <==> a in configured && a !in BroughtSince(configured, log)
  }

  /** The list holds the addresses the last request brought. With a request since the list was emptied: it
      brought again whatever it found there. Without: whatever it had brought before was brought again since. */
  predicate ListOfRequest(configured: seq<nat>, log: seq<GiMark>) {
    if InAttempt(log) then forall a | a in Stale(configured, log) :: a in BroughtSince(configured, log)
    else forall a | a in Dropped(configured, log) :: a in ReceivedBy(configured, log)
  }

  /** The report of any end, of a GI or not, is exact if and only if that holds. */
  lemma ExactIff(configured: seq<nat>, log: seq<GiMark>)
    ensures Exact(configured, log) <==> ListOfRequest(configured, log)
  {
    SameAddressesIff(configured, log);
    forall a ensures a in Reported(configured, log) <==> a in configured && a !in ReceivedBy(configured, log) {
      GiResult.ReceivedOrInvalid(configured, ReceivedBy(configured, log), a);
    }
    if Exact(configured, log) {
      forall a ensures a in ReceivedBy(configured, log) <==> a in BroughtSince(configured, log) {
        assert a in Reported(configured, log) <==> a in configured && a !in BroughtSince(configured, log);
      }
    }
  }

  lemma SameAddressesIff(configured: seq<nat>, log: seq<GiMark>)
    ensures (forall a :: a in ReceivedBy(configured, log) <==> a in BroughtSince(configured, log))
            <==> ListOfRequest(configured, log)
  {
    if InAttempt(log) {
      ListIsStaleAndBrought(configured, log);
      SumAdds(Stale(configured, log), BroughtSince(configured, log), ReceivedBy(configured, log));
    } else {
      ListIsAfterDropped(configured, log);
      SumAdds(Dropped(configured, log), ReceivedBy(configured, log), BroughtSince(configured, log));
    }
  }

  lemma SumAdds(x: seq<nat>, y: seq<nat>, sum: seq<nat>)
    requires sum == x + y
    ensures (forall a :: a in sum <==> a in y) <==> forall a | a in x :: a in y
  {
    if forall a :: a in sum <==> a in y {
      forall a | a in x ensures a in y {
        assert a in sum;
      }
    }
  }

  /** Every report in the log is the one its past gives. */
  predicate ReportsFit(configured: seq<nat>, log: seq<GiMark>) {
    if log == [] then true
    else
      var init := log[..|log| - 1];
      var last := log[|log| - 1];
      ReportsFit(configured, init) && (last.GiEnded? ==> last.invalidated == Reported(configured, init))
  }

  lemma {:induction false} ReportAt(configured: seq<nat>, log: seq<GiMark>, k: nat)
    requires ReportsFit(configured, log) && k < |log| && log[k].GiEnded?
    ensures log[k].invalidated == Reported(configured, log[..k])
    decreases |log|
  {
    var init := log[..|log| - 1];
    if k < |init| {
      ReportAt(configured, init, k);
      assert init[..k] == log[..k];
    }
  }

  /** The addresses sent as invalid last. */
  function LastReport(log: seq<GiMark>): seq<nat> {
    if log == [] then []
    else
      match log[|log| - 1]
      case GiEnded(invalidated) => invalidated
      case _ => LastReport(log[..|log| - 1])
  }

  /** One more mark. */
  lemma Appended(configured: seq<nat>, log: seq<GiMark>, mark: GiMark)
    ensures var all := log + [mark];
            && SentSince(all) == (if mark.GiEnded? || mark.ActivePathLost? then 0
                                  else SentSince(log) + (if mark == Requested(true) then 1 else 0))
            && ReceivedBy(configured, all)
               == (if mark.GiEnded? || mark.ListCleared? then []
                   else ReceivedBy(configured, log)
                        + (if mark.Brought? then GiResult.TscgReceived(configured, mark.block) else []))
            && LastReport(all) == (if mark.GiEnded? then mark.invalidated else LastReport(log))
            && (ReportsFit(configured, all)
                <==> ReportsFit(configured, log) && (mark.GiEnded? ==> mark.invalidated == Reported(configured, log)))
  {
    assert (log + [mark])[..|log|] == log;
    assert ReceivedBy(configured, log) + [] == ReceivedBy(configured, log);
  }

  /** `longer` is `log`, or has one more mark, which is not the end of a GI. */
  predicate NoEndBetween(log: seq<GiMark>, longer: seq<GiMark>) {
    longer == log || (|longer| == |log| + 1 && longer[..|log|] == log && !longer[|log|].GiEnded?)
  }

  /** `longer` is `log` followed by TSCGs only. */
  predicate OnlyBrings(log: seq<GiMark>, longer: seq<GiMark>) {
    log <= longer && forall k | |log| <= k < |longer| :: longer[k].Brought?
  }

  lemma {:induction false} OnlyBringsKeeps(configured: seq<nat>, log: seq<GiMark>, longer: seq<GiMark>)
    requires OnlyBrings(log, longer)
    ensures SentSince(longer) == SentSince(log) && LastReport(longer) == LastReport(log)
    ensures InAttempt(log) ==> InAttempt(longer) && Stale(configured, longer) == Stale(configured, log)
    decreases |longer|
  {
    if |log| < |longer| {
      OnlyBringsKeeps(configured, log, longer[..|longer| - 1]);
    } else {
      assert log == longer;
    }
  }
}
