/** TC and TVC commands: the bytes of a TC, its address after the round trip, and the list of the
    commands that wait for an acknowledgement. */
module Commands {
  import opened HnzTypes
  import opened Decimal

  const TC_CODE: Byte := 0x19
  const TVC_CODE: Byte := 0x1a

  /** "0" in front of the address, so that there are always two digits to split. */
  function AddressDigits(address: int): (s: string)
    ensures |s| >= 2
  {
    "0" + IntToString(address)
  }

  function LastDigit(s: string): int
    requires s != ""
  {
    (s[|s| - 1] as int) - ('0' as int)
  }

  /** Payload of a TC. The bit fields of the last byte are disjoint, so `|` adds them; the byte keeps
      the low eight bits. */
  function TcPayload(address: int, value: Byte): Payload {
    var s := AddressDigits(address);
    [TC_CODE, Stoi(s[..|s| - 1]) % 256, ((value % 4) * 8 + LastDigit(s) * 32) % 256]
  }

  function TvcPayload(address: Byte, value: int): Payload {
    [TVC_CODE, address % 32, (if value >= 0 then value else -value) % 128, if value >= 0 then 0 else 0x80]
  }

  /** Address carried by two bytes: TC acknowledgements and TSCE use the same coding. */
  function JoinedAddress(ado: Byte, adb: Byte): nat {
    Stoi(ToString(ado) + ToString(adb / 32))
  }

  lemma JoinedAddressIs(ado: Byte, adb: Byte)
    ensures JoinedAddress(ado, adb) == 10 * ado + adb / 32
  {
    JoinAppendsDigit(ado, adb / 32);
  }

  lemma SplitDigits(address: nat)
    ensures var s := AddressDigits(address);
            Stoi(s[..|s| - 1]) == address / 10 && LastDigit(s) == address % 10
  {
    var s := AddressDigits(address);
    if address < 10 {
      assert s[..|s| - 1] == "0";
      ParseDigit(0, 0);
    } else {
      var q := ToString(address / 10);
      assert s[..|s| - 1] == "0" + q;
      ParseAppend("0", q, 0);
      ParseDigit(0, 0);
      StoiOfToString(address / 10);
    }
  }

  lemma NegativeDigits(address: int)
    requires address < 0
    ensures var s := AddressDigits(address);
            Stoi(s[..|s| - 1]) == 0 && 0 <= LastDigit(s) < 10
  {
    var s := AddressDigits(address);
    assert s[..|s| - 1][0] == '0' && s[1] == '-';
    assert |s| >= 3;
    var t := s[..|s| - 1];
    assert t[1..][0] == '-';
    assert ParseFrom(t[1..], 0) == 0;
    assert DigitValue(t[0]) == 0;
    ToStringIsDigits(-address);
    assert s[|s| - 1] == ToString(-address)[|s| - 3];
    assert s[|s| - 1] in ToString(-address);
  }

  /** The address of a TC survives the round trip through the frame and its acknowledgement exactly
      when its last digit fits three bits and the rest one byte. */
  lemma TcAddressRoundTrip(address: int, value: Byte)
    ensures var p := TcPayload(address, value);
            JoinedAddress(p[1], p[2]) == address
            <==> 0 <= address && address % 10 <= 7 && address / 10 <= 255
  {
    var p := TcPayload(address, value);
    JoinedAddressIs(p[1], p[2]);
    if address >= 0 {
      SplitDigits(address);
      FieldsFit(address / 10, address % 10, value % 4);
    }
  }

  lemma FieldsFit(q: nat, d: nat, v: nat)
    requires d < 10 && v < 4
    ensures 10 * (q % 256) + (v * 8 + d * 32) % 256 / 32 == 10 * q + d <==> d <= 7 && q <= 255
  {
    assert (v * 8 + d * 32) % 256 / 32 == d % 8;
  }

  /** The two bits of the value come back from the same byte, whatever the address. */
  lemma TcValueRoundTrip(address: int, value: Byte)
    ensures TcPayload(address, value)[2] / 8 % 4 == value % 4
  {
    if address < 0 {
      NegativeDigits(address);
    } else {
      SplitDigits(address);
    }
    LowBitsKept(value % 4, LastDigit(AddressDigits(address)));
  }

  lemma LowBitsKept(v: nat, d: nat)
    requires v < 4 && d < 10
    ensures (v * 8 + d * 32) % 256 / 8 % 4 == v
  {
    assert (v * 8 + d * 32) % 256 == v * 8 + d % 8 * 32;
  }

  /** A TVC value, as the acknowledgement is read: seven bits and a sign. */
  function TvcValue(low: Byte, sign: Byte): int {
    if sign / 128 == 1 then -(low % 128) else low % 128
  }

  lemma TvcValueRoundTrip(address: Byte, value: int)
    ensures var p := TvcPayload(address, value); TvcValue(p[2], p[3]) == value <==> -127 <= value <= 127
  {
  }

  predicate IsFor(cmd: Command, kind: CommandKind, addr: int) {
    cmd.kind == kind && cmd.addr == addr
  }

  /** The acknowledgement that repeats the address bytes of a TC clears that command, for exactly the
      addresses that survive the coding. */
  lemma TcIsAcknowledgedIff(address: int, value: Byte, deadline: int)
    ensures var p := TcPayload(address, value);
            IsFor(Command(TC, address, deadline), TC, JoinedAddress(p[1], p[2]))
            <==> 0 <= address && address % 10 <= 7 && address / 10 <= 255
  {
    TcAddressRoundTrip(address, value);
  }

  /** The frame of a TVC keeps five bits of the address, the list of pending commands keeps them all. */
  lemma TvcIsAcknowledgedIff(address: Byte, value: int, deadline: int)
    ensures IsFor(Command(TVC, address, deadline), TVC, TvcPayload(address, value)[1] % 32) <==> address < 32
  {
  }

  /** The commands left by an acknowledgement. */
  function Unacknowledged(cmds: seq<Command>, kind: CommandKind, addr: int): (r: seq<Command>) {
    if cmds == [] then []
    else
      var last := cmds[|cmds| - 1];
      Unacknowledged(cmds[..|cmds| - 1], kind, addr) + (if IsFor(last, kind, addr) then [] else [last])
  }

  /** The commands left by the expiry loop. */
  function Unexpired(cmds: seq<Command>, current: int): (r: seq<Command>) {
    if cmds == [] then []
    else
      var last := cmds[|cmds| - 1];
      Unexpired(cmds[..|cmds| - 1], current) + (if last.deadline < current then [] else [last])
  }

  /** `r` keeps elements of `s` in their order. */
  predicate Subsequence(r: seq<Command>, s: seq<Command>) {
    if r == [] then true
    else if s == [] then false
    else if r[|r| - 1] == s[|s| - 1] then Subsequence(r[..|r| - 1], s[..|s| - 1])
    else Subsequence(r, s[..|s| - 1])
  }

  /** An acknowledgement removes the commands of that kind and address, and nothing else. */
  lemma AcknowledgeRemovesExactly(cmds: seq<Command>, kind: CommandKind, addr: int, c: Command)
    ensures var r := Unacknowledged(cmds, kind, addr);
            Subsequence(r, cmds) && multiset(r)[c] == if IsFor(c, kind, addr) then 0 else multiset(cmds)[c]
  {
    UnacknowledgedInOrder(cmds, kind, addr);
    UnacknowledgedCount(cmds, kind, addr, c);
  }

  lemma {:induction false} UnacknowledgedCount(cmds: seq<Command>, kind: CommandKind, addr: int, c: Command)
    ensures multiset(Unacknowledged(cmds, kind, addr))[c] == if IsFor(c, kind, addr) then 0 else multiset(cmds)[c]
  {
    if cmds != [] {
      var init, last := cmds[..|cmds| - 1], cmds[|cmds| - 1];
      UnacknowledgedCount(init, kind, addr, c);
      assert cmds == init + [last];
    }
  }

  lemma {:induction false} UnacknowledgedInOrder(cmds: seq<Command>, kind: CommandKind, addr: int)
    ensures Subsequence(Unacknowledged(cmds, kind, addr), cmds)
    ensures forall x | x in Unacknowledged(cmds, kind, addr) :: !IsFor(x, kind, addr)
  {
    if cmds != [] {
      var init, last := cmds[..|cmds| - 1], cmds[|cmds| - 1];
      UnacknowledgedInOrder(init, kind, addr);
      var r := Unacknowledged(init, kind, addr);
      assert (r + [last])[..|r|] == r && r + [] == r;
    }
  }

  /** The expiry loop removes the overdue commands, and nothing else. */
  lemma ExpiryRemovesExactly(cmds: seq<Command>, current: int, c: Command)
    ensures var r := Unexpired(cmds, current);
            Subsequence(r, cmds) && multiset(r)[c] == if c.deadline < current then 0 else multiset(cmds)[c]
  {
    UnexpiredInOrder(cmds, current);
    UnexpiredCount(cmds, current, c);
  }

  lemma {:induction false} UnexpiredCount(cmds: seq<Command>, current: int, c: Command)
    ensures multiset(Unexpired(cmds, current))[c] == if c.deadline < current then 0 else multiset(cmds)[c]
  {
    if cmds != [] {
      var init, last := cmds[..|cmds| - 1], cmds[|cmds| - 1];
      UnexpiredCount(init, current, c);
      assert cmds == init + [last];
    }
  }

  lemma {:induction false} UnexpiredInOrder(cmds: seq<Command>, current: int)
    ensures Subsequence(Unexpired(cmds, current), cmds)
    ensures forall x | x in Unexpired(cmds, current) :: x.deadline >= current
  {
    if cmds != [] {
      var init, last := cmds[..|cmds| - 1], cmds[|cmds| - 1];
      UnexpiredInOrder(init, current);
      var r := Unexpired(init, current);
      assert (r + [last])[..|r|] == r && r + [] == r;
    }
  }
}
