/** What a General Interrogation received, and what is reported when it ends. */
module GiResult {
  import opened HnzTypes
  import opened Decimal

  /** Address of the i-th TS of a TSCG: two strings joined, as everywhere in the code. */
  function TscgAddress(ado: Byte, i: nat): nat
    requires i < 16
  {
    Stoi(ToString(ado + i / 8) + ToString(i % 8))
  }

  /** The addresses of the first n TS of a TSCG. */
  function TscgAddresses(ado: Byte, n: nat): (r: seq<nat>)
    requires n <= 16
    ensures |r| == n && forall i | 0 <= i < n :: r[i] == TscgAddress(ado, i)
  {
    seq(n, i requires 0 <= i < n => TscgAddress(ado, i))
  }

  /** Those that have a label in the configuration. */
  function Labelled(configured: seq<nat>, addresses: seq<nat>): (r: seq<nat>)
    ensures forall a | a in r :: a in configured
  {
    if addresses == [] then []
    else
      var a := addresses[|addresses| - 1];
      Labelled(configured, addresses[..|addresses| - 1]) + (if a in configured then [a] else [])
  }

  /** What a TSCG adds to the list of received addresses. */
  function TscgReceived(configured: seq<nat>, ado: Byte): (r: seq<nat>)
    ensures forall a | a in r :: a in configured
  {
    Labelled(configured, TscgAddresses(ado, 16))
  }

  lemma {:induction false} LabelledAre(configured: seq<nat>, addresses: seq<nat>, a: nat)
    ensures a in Labelled(configured, addresses) <==> a in configured && a in addresses
  {
    if addresses != [] {
      var init := addresses[..|addresses| - 1];
      LabelledAre(configured, init, a);
      assert addresses == init + [addresses[|addresses| - 1]];
    }
  }

  function BlockAddress(ado: Byte, i: nat): nat {
    if i < 8 then 10 * ado + i else 10 * (ado + 1) + (i - 8)
  }

  lemma TscgAddressIs(ado: Byte, i: nat)
    requires i < 16
    ensures TscgAddress(ado, i) == BlockAddress(ado, i)
  {
    JoinAppendsDigit(ado + i / 8, i % 8);
  }

  lemma BlocksHold(ado: Byte, all: seq<nat>, a: nat)
    requires |all| == 16 && forall i | 0 <= i < 16 :: all[i] == BlockAddress(ado, i)
    ensures a in all <==> 10 * ado <= a < 10 * ado + 8 || 10 * (ado + 1) <= a < 10 * (ado + 1) + 8
  {
    if 10 * ado <= a < 10 * ado + 8 {
      assert all[a - 10 * ado] == a;
    } else if 10 * (ado + 1) <= a < 10 * (ado + 1) + 8 {
      assert all[a - 10 * (ado + 1) + 8] == a;
    }
  }

  /** A TSCG covers two consecutive blocks of eight addresses, ten apart; the configured ones count. */
  lemma TscgCovers(configured: seq<nat>, ado: Byte, a: nat)
    ensures a in TscgReceived(configured, ado)
            <==> a in configured && (10 * ado <= a < 10 * ado + 8 || 10 * (ado + 1) <= a < 10 * (ado + 1) + 8)
  {
    LabelledAre(configured, TscgAddresses(ado, 16), a);
    forall i | 0 <= i < 16 ensures TscgAddresses(ado, 16)[i] == BlockAddress(ado, i) {
      TscgAddressIs(ado, i);
    }
    BlocksHold(ado, TscgAddresses(ado, 16), a);
  }

  /** m_sendAllTIQualityReadings: the configured addresses that the filter does not hold, in order. */
  function Unfiltered(configured: seq<nat>, filter: seq<nat>): (r: seq<nat>) {
    if configured == [] then []
    else
      var a := configured[|configured| - 1];
      Unfiltered(configured[..|configured| - 1], filter) + (if a in filter then [] else [a])
  }

  /** At the end of a GI, the addresses received and those sent as invalid partition the configured
      ones, and an address is sent as often as it is configured. */
  lemma {:induction false} ReceivedOrInvalid(configured: seq<nat>, received: seq<nat>, a: nat)
    ensures multiset(Unfiltered(configured, received))[a]
            == if a in received then 0 else multiset(configured)[a]
    ensures a in Unfiltered(configured, received) <==> a in configured && a !in received
  {
    if configured != [] {
      var init, last := configured[..|configured| - 1], configured[|configured| - 1];
      ReceivedOrInvalid(init, received, a);
      assert configured == init + [last];
    }
  }

  function AddressSet(addresses: seq<nat>): set<nat> {
    set a | a in addresses
  }

  /** m_getMismatchingTSCGAddresses, one received address at a time. */
  function Mismatch(configured: set<nat>, received: seq<nat>): (r: (set<nat>, set<nat>)) {
    if received == [] then (configured, {})
    else
      var a := received[|received| - 1];
      var (missing, extra) := Mismatch(configured, received[..|received| - 1]);
      if a !in missing then (missing, extra + {a}) else (missing - {a}, extra)
  }

  /** Missing are the configured addresses never received; extra are those received twice or more, or
      not configured. */
  lemma {:induction false} MismatchMeans(configured: set<nat>, received: seq<nat>, a: nat)
    ensures var (missing, extra) := Mismatch(configured, received);
            && (a in missing <==> a in configured && a !in received)
            && (a in extra <==> (a in received && a !in configured) || multiset(received)[a] >= 2)
  {
    if received != [] {
      var init, last := received[..|received| - 1], received[|received| - 1];
      MismatchMeans(configured, init, a);
      MismatchMeans(configured, init, last);
      assert received == init + [last];
      var count: multiset<nat> := multiset(init);
      assert multiset(received)[a] == count[a] + (if a == last then 1 else 0);
      assert (a in init <==> count[a] >= 1) && (last in init <==> count[last] >= 1);
    }
  }
}
