/** Network collection helpers: rendering the TCP connection tables as
    text, the traceroute loop, ping tallies and the hosts file. */
module Network {
  import opened Common
  import opened Store

  // ---------------------------------------------------------------------
  // Ports and addresses
  // ---------------------------------------------------------------------

  /** The four port bytes of a TCP table row; only the first two are used. */
  type PortBytes = s: seq<byte> | |s| == 4 witness [0, 0, 0, 0]

  /** The sixteen address bytes of a TCPv6 table row. */
  type Ipv6Bytes = s: seq<byte> | |s| == 16 witness seq(16, _ => 0)

  /** `(b[0] << 8) + b[1]`: the port in network byte order. */
  function Port(b: PortBytes): (p: int)
    ensures 0 <= p < 65536
    ensures p / 256 == b[0] && p % 256 == b[1]
  {
    (b[0] as int) * 256 + (b[1] as int)
  }

  /** The low `n` base-256 digits of `a`, least significant first: what
      alternating `% 256` and `/ 256` peel off. */
  function Octets(a: nat, n: nat): (o: seq<byte>)
    ensures |o| == n
  {
    if n == 0 then [] else [a % 256] + Octets(a / 256, n - 1)
  }

  /** Four octets put back together give the address again. */
  lemma OctetsRecompose(a: uint32)
    ensures var o := Octets(a, 4);
      (o[0] as int) + 256 * (o[1] as int) + 65536 * (o[2] as int) + 16777216 * (o[3] as int) == a
  {
    OctetsFour(a);
  }

  /** The decimal text of each octet, in order. */
  function Decimals(o: seq<byte>): (ds: seq<string>)
    ensures |ds| == |o|
  {
    if o == [] then [] else Decimals(o[..|o| - 1]) + [DecimalText(o[|o| - 1])]
  }

  /** The parts separated by single copies of `sep`. */
  function Join(parts: seq<string>, sep: string): string
  {
    if |parts| == 0 then []
    else if |parts| == 1 then parts[0]
    else Join(parts[..|parts| - 1], sep) + sep + parts[|parts| - 1]
  }

  lemma JoinSnoc(parts: seq<string>, p: string, sep: string)
    ensures Join(parts + [p], sep) == Join(parts, sep) + (if parts == [] then "" else sep) + p
  {
    assert (parts + [p])[..|parts|] == parts;
  }

  /** Joining `n` parts that do not contain the separator character puts
      exactly `n - 1` copies of it into the text. */
  lemma {:induction false} JoinSeparators(parts: seq<string>, c: char)
    requires |parts| >= 1
    requires forall k :: 0 <= k < |parts| ==> CountChar(parts[k], c) == 0
    ensures CountChar(Join(parts, [c]), c) == |parts| - 1
  {
    if |parts| > 1 {
      var init := parts[..|parts| - 1];
      JoinSeparators(init, c);
      assert CountChar([c], c) == 1;
      CountCharAppend(Join(init, [c]), [c], c);
      CountCharAppend(Join(init, [c]) + [c], parts[|parts| - 1], c);
    }
  }

  /** `$"{o1}.{o2}.{o3}.{o4}"` over the octets of the address. */
  function Ipv4Text(addr: uint32): string
  {
    Join(Decimals(Octets(addr, 4)), ".")
  }

  lemma OctetsFour(addr: uint32)
    ensures var r1 := addr / 256; var r2 := r1 / 256;
      Octets(addr, 4) == [addr % 256, r1 % 256, r2 % 256, r2 / 256]
  {
    var r1 := addr / 256;
    var r2 := r1 / 256;
    var r3 := r2 / 256;
    assert r3 < 256;
    assert Octets(r3, 1) == [r3 % 256];
    assert Octets(r2, 2) == [r2 % 256] + Octets(r3, 1);
    assert Octets(r1, 3) == [r1 % 256] + Octets(r2, 2);
  }

  lemma DecimalsFour(o: seq<byte>)
    requires |o| == 4
    ensures Decimals(o) == [DecimalText(o[0]), DecimalText(o[1]), DecimalText(o[2]), DecimalText(o[3])]
  {
    assert o[..3][..2] == o[..2] && o[..2][..1] == o[..1] && o[..1][..0] == [];
    assert Decimals(o[..1]) == [DecimalText(o[0])];
    assert Decimals(o[..2]) == Decimals(o[..1]) + [DecimalText(o[1])];
    assert Decimals(o[..3]) == Decimals(o[..2]) + [DecimalText(o[2])];
    assert Decimals(o) == Decimals(o[..3]) + [DecimalText(o[3])];
  }

  lemma JoinFour(d: seq<string>, sep: string)
    requires |d| == 4
    ensures Join(d, sep) == d[0] + sep + d[1] + sep + d[2] + sep + d[3]
  {
    assert d[..3][..2] == d[..2] && d[..2][..1] == d[..1];
    assert Join(d[..2], sep) == d[0] + sep + d[1];
    assert Join(d[..3], sep) == Join(d[..2], sep) + sep + d[2];
  }

  /** The dotted quad written out octet by octet. */
  lemma Ipv4TextSteps(addr: uint32)
    ensures var r1 := addr / 256; var r2 := r1 / 256;
      Ipv4Text(addr) == DecimalText(addr % 256) + "." + DecimalText(r1 % 256) + "."
                        + DecimalText(r2 % 256) + "." + DecimalText(r2 / 256)
  {
    OctetsFour(addr);
    DecimalsFour(Octets(addr, 4));
    JoinFour(Decimals(Octets(addr, 4)), ".");
  }

  /** The IPv4 text of a table address, computed as the source does. */
  method FormatIpv4(addr: uint32) returns (text: string)
    ensures text == Ipv4Text(addr)
  {
    var la: int := addr;
    var addr1 := la % 256;
    la := la / 256;
    var addr2 := la % 256;
    la := la / 256;
    var addr3 := la % 256;
    var addr4 := la / 256;
    text := DecimalText(addr1) + "." + DecimalText(addr2) + "." + DecimalText(addr3) + "." + DecimalText(addr4);
    Ipv4TextSteps(addr);
  }

  lemma NoCharInDecimal(n: nat, c: char)
    requires !IsDigit(c)
    ensures CountChar(DecimalText(n), c) == 0
  {
    DecimalTextShape(n);
    NoCharCount(DecimalText(n), c);
  }

  lemma {:induction false} NoCharCount(s: string, c: char)
    requires forall i :: 0 <= i < |s| ==> s[i] != c
    ensures CountChar(s, c) == 0
  {
    if |s| > 0 {
      NoCharCount(s[1..], c);
    }
  }

  lemma {:induction false} DecimalsAt(o: seq<byte>, k: nat)
    requires k < |o|
    ensures Decimals(o)[k] == DecimalText(o[k])
  {
    if k < |o| - 1 {
      DecimalsAt(o[..|o| - 1], k);
    }
  }

  /** Every IPv4 text has exactly three dots, one between each pair of octets. */
  lemma Ipv4TextDots(addr: uint32)
    ensures CountChar(Ipv4Text(addr), '.') == 3
  {
    var o := Octets(addr, 4);
    forall k | 0 <= k < 4 ensures CountChar(Decimals(o)[k], '.') == 0 {
      DecimalsAt(o, k);
      NoCharInDecimal(o[k], '.');
    }
    JoinSeparators(Decimals(o), '.');
  }

  /** One IPv6 group: empty when both bytes are zero, else the four
      upper-case hexadecimal digits of the two bytes. */
  function Group(hi: byte, lo: byte): (g: string)
    ensures g == [] <==> hi == 0 && lo == 0
    ensures g != [] ==> |g| == 4
  {
    if hi == 0 && lo == 0 then [] else ByteHex(hi) + ByteHex(lo)
  }

  /** The groups of an even-length byte string, two bytes each, in order. */
  function Groups(addr: seq<byte>): (gs: seq<string>)
    ensures gs == [] <==> |addr| < 2
  {
    if |addr| < 2 then []
    else Groups(addr[..|addr| - 2]) + [Group(addr[|addr| - 2], addr[|addr| - 1])]
  }

  lemma {:induction false} GroupsLength(addr: seq<byte>)
    ensures |Groups(addr)| == |addr| / 2
  {
    if |addr| >= 2 {
      GroupsLength(addr[..|addr| - 2]);
    }
  }

  lemma {:induction false} GroupsAt(addr: seq<byte>, k: nat)
    requires |addr| % 2 == 0 && 2 * k + 1 < |addr|
    ensures k < |Groups(addr)| && Groups(addr)[k] == Group(addr[2 * k], addr[2 * k + 1])
  {
    GroupsLength(addr);
    if |addr| >= 2 {
      GroupsLength(addr[..|addr| - 2]);
      if 2 * k + 1 < |addr| - 2 {
        GroupsAt(addr[..|addr| - 2], k);
      }
    }
  }

  lemma GroupsSnoc(addr: seq<byte>, i: nat)
    requires i + 2 <= |addr|
    ensures Groups(addr[..i + 2]) == Groups(addr[..i]) + [Group(addr[i], addr[i + 1])]
  {
    assert addr[..i + 2][..i] == addr[..i];
  }

  /** The text of the groups of `la[..i]`, each after a colon except the
      first: the IPv6 rendering as it stands once the first `i` bytes
      (`i` even) have been consumed. (This is not the compressed form of
      RFC 5952: a zero group leaves an empty field.) */
  function Ipv6Prefix(la: seq<byte>, i: nat): string
    requires i <= |la|
  {
    if i < 2 then []
    else
      var pre := Ipv6Prefix(la, i - 2) + (if i > 2 then ":" else "");
      if la[i - 2] == 0 && la[i - 1] == 0 then pre else pre + ByteHex(la[i - 2]) + ByteHex(la[i - 1])
  }

  function Ipv6Text(la: seq<byte>): string
  {
    Ipv6Prefix(la, |la|)
  }

  /** The rendering is the groups joined by colons. */
  lemma {:induction false} Ipv6PrefixJoin(la: seq<byte>, i: nat)
    requires i <= |la| && i % 2 == 0
    ensures Ipv6Prefix(la, i) == Join(Groups(la[..i]), ":")
  {
    if i >= 2 {
      Ipv6PrefixJoin(la, i - 2);
      GroupsSnoc(la, i - 2);
      GroupsLength(la[..i - 2]);
      var g := Group(la[i - 2], la[i - 1]);
      JoinSnoc(Groups(la[..i - 2]), g, ":");
      var pre := Ipv6Prefix(la, i - 2) + (if i > 2 then ":" else "");
      if g != [] {
        assert pre + ByteHex(la[i - 2]) + ByteHex(la[i - 1]) == pre + g;
      }
    }
  }

  /** The IPv6 text of a table address, built byte by byte as the source
      does: a colon before every group but the first, an all-zero group
      skipped whole. */
  method FormatIpv6(la: seq<byte>) returns (text: string)
    requires |la| % 2 == 0
    ensures text == Ipv6Text(la)
  {
    text := "";
    var i := 0;
    while i < |la|
      invariant 0 <= i <= |la|
      invariant i % 2 == 0 ==> text == Ipv6Prefix(la, i)
      invariant i % 2 == 1 ==>
        !(la[i - 1] == 0 && la[i] == 0) &&
        text == Ipv6Prefix(la, i - 1) + (if i > 1 then ":" else "") + ByteHex(la[i - 1])
    {
      if i % 2 == 0 {
        if i != 0 {
          text := text + ":";
        }
        if la[i] == 0x00 && la[i + 1] == 0x00 {
          i := i + 2;
          continue;
        }
      }
      text := text + ByteHex(la[i]);
      i := i + 1;
    }
  }

  lemma GroupHasNoColon(hi: byte, lo: byte)
    ensures CountChar(Group(hi, lo), ':') == 0
  {
    NoCharCount(Group(hi, lo), ':');
  }

  /** The rendering of an even-length address is its groups joined by
      colons, one colon fewer than there are groups. */
  lemma Ipv6Colons(la: seq<byte>)
    requires |la| % 2 == 0 && |la| >= 2
    ensures Ipv6Text(la) == Join(Groups(la), ":")
    ensures CountChar(Ipv6Text(la), ':') == |la| / 2 - 1
  {
    var gs := Groups(la);
    GroupsLength(la);
    Ipv6PrefixJoin(la, |la|);
    assert la[..|la|] == la;
    forall k | 0 <= k < |gs| ensures CountChar(gs[k], ':') == 0 {
      GroupsAt(la, k);
      GroupHasNoColon(la[2 * k], la[2 * k + 1]);
    }
    JoinSeparators(gs, ':');
  }

  /** A 16-byte address prints as eight groups separated by exactly seven
      colons; a group is empty iff both its bytes are zero. */
  lemma Ipv6EightGroups(la: Ipv6Bytes)
    ensures |Groups(la)| == 8
    ensures CountChar(Ipv6Text(la), ':') == 7
    ensures forall k :: 0 <= k < 8 ==> (Groups(la)[k] == [] <==> la[2 * k] == 0 && la[2 * k + 1] == 0)
  {
    GroupsLength(la);
    Ipv6Colons(la);
    forall k | 0 <= k < 8 ensures Groups(la)[k] == Group(la[2 * k], la[2 * k + 1]) {
      GroupsAt(la, k);
    }
  }

  // ---------------------------------------------------------------------
  // The connection table
  // ---------------------------------------------------------------------

  datatype Tcp4Row = Tcp4Row(localAddr: uint32, localPort: PortBytes,
                             remoteAddr: uint32, remotePort: PortBytes, owningPid: uint32)

  datatype Tcp6Row = Tcp6Row(localAddr: Ipv6Bytes, localPort: PortBytes,
                             remoteAddr: Ipv6Bytes, remotePort: PortBytes, owningPid: uint32)

  function V4Connection(row: Tcp4Row): NetworkConnection
  {
    NetworkConnection(Ipv4Text(row.localAddr), Port(row.localPort),
                      Ipv4Text(row.remoteAddr), Port(row.remotePort), row.owningPid)
  }

  function V6Connection(row: Tcp6Row): NetworkConnection
  {
    NetworkConnection(Ipv6Text(row.localAddr), Port(row.localPort),
                      Ipv6Text(row.remoteAddr), Port(row.remotePort), row.owningPid)
  }

  /** One IPv4 row as the loop body converts it. */
  method ConvertV4(row: Tcp4Row) returns (conn: NetworkConnection)
    ensures conn == V4Connection(row)
  {
    var port := Port(row.localPort);
    var rport := Port(row.remotePort);
    var local := FormatIpv4(row.localAddr);
    var remote := FormatIpv4(row.remoteAddr);
    conn := NetworkConnection(local, port, remote, rport, row.owningPid);
  }

  /** One IPv6 row as the loop body converts it. */
  method ConvertV6(row: Tcp6Row) returns (conn: NetworkConnection)
    ensures conn == V6Connection(row)
  {
    var port := Port(row.localPort);
    var rport := Port(row.remotePort);
    var local := FormatIpv6(row.localAddr);
    var remote := FormatIpv6(row.remoteAddr);
    conn := NetworkConnection(local, port, remote, rport, row.owningPid);
  }

  /** The rows of a table converted one by one, in table order. */
  function V4Connections(rows: seq<Tcp4Row>): (cs: seq<NetworkConnection>)
    ensures |cs| == |rows|
  {
    if rows == [] then [] else V4Connections(rows[..|rows| - 1]) + [V4Connection(rows[|rows| - 1])]
  }

  function V6Connections(rows: seq<Tcp6Row>): (cs: seq<NetworkConnection>)
    ensures |cs| == |rows|
  {
    if rows == [] then [] else V6Connections(rows[..|rows| - 1]) + [V6Connection(rows[|rows| - 1])]
  }

  /** Row `k` of the table becomes entry `k` of the conversion. */
  lemma {:induction false} V4ConnectionsAt(rows: seq<Tcp4Row>, k: nat)
    requires k < |rows|
    ensures V4Connections(rows)[k] == V4Connection(rows[k])
  {
    if k < |rows| - 1 {
      V4ConnectionsAt(rows[..|rows| - 1], k);
    }
  }

  lemma {:induction false} V6ConnectionsAt(rows: seq<Tcp6Row>, k: nat)
    requires k < |rows|
    ensures V6Connections(rows)[k] == V6Connection(rows[k])
  {
    if k < |rows| - 1 {
      V6ConnectionsAt(rows[..|rows| - 1], k);
    }
  }

  lemma V4ConnectionsSnoc(rows: seq<Tcp4Row>, i: nat)
    requires i < |rows|
    ensures V4Connections(rows[..i + 1]) == V4Connections(rows[..i]) + [V4Connection(rows[i])]
  {
    assert rows[..i + 1][..i] == rows[..i];
  }

  lemma V6ConnectionsSnoc(rows: seq<Tcp6Row>, i: nat)
    requires i < |rows|
    ensures V6Connections(rows[..i + 1]) == V6Connections(rows[..i]) + [V6Connection(rows[i])]
  {
    assert rows[..i + 1][..i] == rows[..i];
  }

  /** `GetNetworkConnections`: every IPv4 row converted in table order,
      followed by every IPv6 row converted in table order. */
  method GetNetworkConnections(v4: seq<Tcp4Row>, v6: seq<Tcp6Row>) returns (list: seq<NetworkConnection>)
    ensures list == V4Connections(v4) + V6Connections(v6)
  {
    list := [];
    for i := 0 to |v4|
      invariant list == V4Connections(v4[..i])
    {
      var conn := ConvertV4(v4[i]);
      V4ConnectionsSnoc(v4, i);
      list := list + [conn];
    }
    assert v4[..|v4|] == v4;
    ghost var first := list;
    for i := 0 to |v6|
      invariant list == first + V6Connections(v6[..i])
    {
      var conn := ConvertV6(v6[i]);
      V6ConnectionsSnoc(v6, i);
      assert first + V6Connections(v6[..i]) + [conn] == first + (V6Connections(v6[..i]) + [conn]);
      list := list + [conn];
    }
    assert v6[..|v6|] == v6;
  }

  // ---------------------------------------------------------------------
  // Traceroute
  // ---------------------------------------------------------------------

  datatype IPStatus = Success | TtlExpired | TimedOut | OtherStatus(code: int)

  datatype PingReply = PingReply(status: IPStatus, address: string)

  const MaxHops: int := 30

  /** The route goes on past a TTL only when its reply timed out or
      expired in transit. */
  predicate Continues(reply: PingReply)
  {
    reply.status == TtlExpired || reply.status == TimedOut
  }

  /** The hop a reply contributes: its address when it succeeded or
      expired in transit, nothing otherwise. */
  function Hop(reply: PingReply): (h: seq<string>)
    ensures |h| <= 1
    ensures h != [] <==> reply.status == Success || reply.status == TtlExpired
  {
    if reply.status == Success || reply.status == TtlExpired then [reply.address] else []
  }

  /** The hops of TTL 1 to `n`, in probe order. */
  function Hops(send: int -> PingReply, n: int): seq<string>
    decreases n
  {
    if n <= 0 then [] else Hops(send, n - 1) + Hop(send(n))
  }

  /** The last TTL probed when probing starts at `ttl` and may go up to
      `cap`: the first TTL that does not continue the route, or `cap`. */
  function LastProbe(send: int -> PingReply, ttl: int, cap: int): (last: int)
    requires ttl >= 1
    ensures ttl - 1 <= last <= (if cap >= ttl then cap else ttl - 1)
    decreases cap - ttl
  {
    if ttl > cap then ttl - 1
    else if !Continues(send(ttl)) then ttl
    else LastProbe(send, ttl + 1, cap)
  }

  /** The route the traceroute reports for a TTL cap. */
  function Route(send: int -> PingReply, cap: int): seq<string>
  {
    Hops(send, LastProbe(send, 1, cap))
  }

  /** At most one hop per TTL probed. */
  lemma {:induction false} HopsLength(send: int -> PingReply, n: int)
    ensures |Hops(send, n)| <= (if n > 0 then n else 0)
    decreases n
  {
    if n > 0 {
      HopsLength(send, n - 1);
    }
  }

  /** Every TTL before the last probed one continued the route, and the
      last one stops it unless the cap was reached. */
  lemma {:induction false} LastProbeStops(send: int -> PingReply, ttl: int, cap: int)
    requires 1 <= ttl
    ensures var last := LastProbe(send, ttl, cap);
      (forall t :: ttl <= t < last ==> Continues(send(t)))
      && (last < cap ==> !Continues(send(last)) || last == ttl - 1)
    decreases cap - ttl
  {
    if ttl <= cap && Continues(send(ttl)) {
      LastProbeStops(send, ttl + 1, cap);
    }
  }

  /** The route never holds more hops than the TTL cap (and none when the
      cap is not positive). */
  lemma RouteLength(send: int -> PingReply, cap: int)
    ensures |Route(send, cap)| <= (if cap > 0 then cap else 0)
  {
    HopsLength(send, LastProbe(send, 1, cap));
  }

  /** A TTL whose reply does not continue the route ends it: nothing beyond
      it is reported, whatever the cap. */
  lemma RouteBounds(send: int -> PingReply, cap: int, stop: int)
    requires 1 <= stop <= cap && !Continues(send(stop))
    ensures LastProbe(send, 1, cap) <= stop
    ensures Route(send, cap) == Route(send, stop)
  {
    LastProbeBefore(send, 1, cap, stop);
  }

  lemma {:induction false} LastProbeBefore(send: int -> PingReply, ttl: int, cap: int, stop: int)
    requires 1 <= ttl <= stop <= cap && !Continues(send(stop))
    ensures LastProbe(send, ttl, cap) == LastProbe(send, ttl, stop) <= stop
    decreases stop - ttl
  {
    if ttl < stop && Continues(send(ttl)) {
      LastProbeBefore(send, ttl + 1, cap, stop);
    }
  }

  /** The TTL cap a requested maximum is reduced to. */
  function TtlCap(maxTTL: int): (cap: int)
    ensures cap <= MaxHops && (maxTTL <= MaxHops ==> cap == maxTTL)
  {
    if maxTTL > MaxHops then MaxHops else maxTTL
  }

  /** Some probe among TTL 1 to `last` makes `Ping.Send` throw. */
  predicate SendFailsWithin(fails: int -> bool, last: int)
  {
    exists t :: 1 <= t <= last && fails(t)
  }

  /** `GetTraceroute`: caps the TTL at 30 and probes TTL 1, 2, ... in turn.
      `fails(t)` says whether `Ping.Send` throws for TTL `t`. A negative
      buffer size makes the buffer allocation throw, then a negative TTL
      makes `Enumerable.Range` throw, then the first throwing probe ends
      the enumeration. */
  method GetTraceroute(send: int -> PingReply, fails: int -> bool, maxTTL: int, bufferSize: int)
    returns (r: Result<seq<string>, Exception>)
    ensures r.Err? <==> bufferSize < 0 || maxTTL < 0 || SendFailsWithin(fails, LastProbe(send, 1, TtlCap(maxTTL)))
    ensures r.Err? ==> r.error == (if bufferSize < 0 then Overflow
                                   else if maxTTL < 0 then ArgumentOutOfRange
                                   else PingFailure)
    ensures r.Ok? ==> r.value == Route(send, TtlCap(maxTTL)) && |r.value| <= TtlCap(maxTTL)
  {
    var cap := maxTTL;
    if cap > MaxHops {
      cap := MaxHops;
    }
    assert cap == TtlCap(maxTTL);
    if bufferSize < 0 {
      return Err(Overflow);
    }
    if cap < 0 {
      return Err(ArgumentOutOfRange);
    }
    var hops: seq<string> := [];
    var i := 1;
    while i <= cap
      invariant 1 <= i <= cap + 1
      invariant hops == Hops(send, i - 1)
      invariant LastProbe(send, i, cap) == LastProbe(send, 1, cap)
      invariant forall t :: 1 <= t < i ==> !fails(t)
    {
      if fails(i) {
        assert 1 <= i <= LastProbe(send, 1, cap) && fails(i);
        return Err(PingFailure);
      }
      var reply := send(i);
      assert Hops(send, i) == hops + Hop(reply);
      if reply.status == Success || reply.status == TtlExpired {
        hops := hops + [reply.address];
      }
      if reply.status != TtlExpired && reply.status != TimedOut {
        assert LastProbe(send, 1, cap) == i;
        break;
      }
      i := i + 1;
    }
    assert forall t :: 1 <= t <= LastProbe(send, 1, cap) ==> !fails(t);
    RouteLength(send, cap);
    r := Ok(hops);
  }

  // ---------------------------------------------------------------------
  // Ping statistics
  // ---------------------------------------------------------------------

  /** What one asynchronous ping produced. */
  datatype PingOutcome = NullReply | Reply(status: IPStatus, roundtripTime: nat) | PingException

  /** `GetLatency`: -2 on an exception, -1 for a null or unsuccessful reply,
      else the round-trip time cast to `int`. */
  function GetLatency(p: PingOutcome): (r: int)
    ensures p.PingException? ==> r == -2
    ensures p.NullReply? || (p.Reply? && p.status != Success) ==> r == -1
    ensures p.Reply? && p.status == Success ==> r == ToInt32(p.roundtripTime)
    ensures p.Reply? && p.status == Success && p.roundtripTime < TwoTo31 ==> r == p.roundtripTime
  {
    match p
    case PingException => -2
    case NullReply => -1
    case Reply(status, rtt) => if status != Success then -1 else ToInt32(rtt)
  }

  /** The tally of the latencies of a list of outcomes: (failed, errors,
      counted, exact sum of the counted latencies). */
  function Tally(os: seq<PingOutcome>): (t: (nat, nat, nat, int))
    ensures t.0 + t.1 + t.2 == |os|
  {
    if os == [] then (0, 0, 0, 0)
    else
      var t := Tally(os[..|os| - 1]);
      var x := GetLatency(os[|os| - 1]);
      if x == -1 then (t.0 + 1, t.1, t.2, t.3)
      else if x == -2 then (t.0, t.1 + 1, t.2, t.3)
      else (t.0, t.1, t.2 + 1, t.3 + x)
  }

  /** Wrapping 32-bit addition step by step agrees with one cast of the exact sum. */
  lemma WrapAdd(a: int, b: int)
    ensures ToInt32(ToInt32(a) + b) == ToInt32(a + b)
  {
    var u := ToInt32(a);
    ToInt32Congruent(a);
    var k := (u - a) / TwoTo32;
    assert u == a + k * TwoTo32;
    assert (u + b) % TwoTo32 == (a + b + k * TwoTo32) % TwoTo32 == (a + b) % TwoTo32;
  }

  /** `GetHostStats` over the outcomes of its `pingCount` pings: -1 counts
      as failed, -2 as an error, everything else is added to a wrapping
      32-bit sum; the average divides by `pingCount`, truncating, and a zero
      count throws. */
  method GetHostStats(outcomes: seq<PingOutcome>, pingCount: int)
    returns (r: Result<(int, nat), Exception>, errors: nat)
    requires |outcomes| == (if pingCount > 0 then pingCount else 0)
    ensures errors == Tally(outcomes).1
    ensures r.Err? <==> pingCount == 0
    ensures r.Ok? ==> r.value == (TDiv(ToInt32(Tally(outcomes).3), pingCount), Tally(outcomes).0)
  {
    var failedPings: nat := 0;
    errors := 0;
    var latencySum := 0;
    var i := 0;
    while i < |outcomes|
      invariant 0 <= i <= |outcomes|
      invariant failedPings == Tally(outcomes[..i]).0 && errors == Tally(outcomes[..i]).1
      invariant latencySum == ToInt32(Tally(outcomes[..i]).3)
    {
      var result := GetLatency(outcomes[i]);
      assert outcomes[..i + 1][..i] == outcomes[..i];
      if result == -1 {
        failedPings := failedPings + 1;
      } else if result == -2 {
        errors := errors + 1;
      } else {
        WrapAdd(Tally(outcomes[..i]).3, result);
        latencySum := ToInt32(latencySum + result);
      }
      i := i + 1;
    }
    assert outcomes[..|outcomes|] == outcomes;
    if pingCount == 0 {
      return Err(DivideByZero), errors;
    }
    r := Ok((TDiv(latencySum, pingCount), failedPings));
  }

  // ---------------------------------------------------------------------
  // Hosts file
  // ---------------------------------------------------------------------

  /** What reading the hosts file yields: its lines (without terminators),
      a missing file, or any other I/O failure. */
  datatype LinesRead = Lines(lines: seq<string>) | NotFound | ReadFailure

  const HostsMissingIssue: string := "Hosts file not found."

  /** Every line followed by `\n`. */
  function JoinLines(lines: seq<string>): string
  {
    if lines == [] then [] else JoinLines(lines[..|lines| - 1]) + lines[|lines| - 1] + "\n"
  }

  /** Splits `\n`-terminated text back into its lines. */
  function SplitLines(s: string): seq<string>
    decreases |s|
  {
    if s == [] then []
    else if s[|s| - 1] != '\n' then [s]
    else
      var body := s[..|s| - 1];
      var k := LastNewline(body, |body|);
      SplitLines(body[..k]) + [body[k..]]
  }

  /** The index just after the last newline in `s[..n]`, or 0. */
  function LastNewline(s: string, n: nat): (k: nat)
    requires n <= |s|
    ensures k <= n
    ensures forall i :: k <= i < n ==> s[i] != '\n'
    ensures k > 0 ==> s[k - 1] == '\n'
  {
    if n == 0 then 0 else if s[n - 1] == '\n' then n else LastNewline(s, n - 1)
  }

  predicate NoNewline(line: string) { forall i :: 0 <= i < |line| ==> line[i] != '\n' }

  /** Lines without terminators survive being joined and split again. */
  lemma {:induction false} JoinSplitRoundTrip(lines: seq<string>)
    requires forall k :: 0 <= k < |lines| ==> NoNewline(lines[k])
    ensures SplitLines(JoinLines(lines)) == lines
  {
    if lines != [] {
      var init, last := lines[..|lines| - 1], lines[|lines| - 1];
      assert JoinLines(lines) == JoinLines(init) + last + "\n";
      JoinLinesEnd(init);
      SplitLast(JoinLines(init), last);
      JoinSplitRoundTrip(init);
      assert lines == init + [last];
    }
  }

  /** Splitting text that ends in one more terminated line gives that line
      after the lines of the text before it. */
  lemma SplitLast(prefix: string, last: string)
    requires prefix == [] || prefix[|prefix| - 1] == '\n'
    requires NoNewline(last)
    ensures SplitLines(prefix + last + "\n") == SplitLines(prefix) + [last]
  {
    var s := prefix + last + "\n";
    var body := s[..|s| - 1];
    var j := |prefix|;
    assert body == prefix + last;
    assert body[..j] == prefix && body[j..] == last;
    LastNewlineAt(body, j);
  }

  /** Joined text is empty or ends with a newline. */
  lemma JoinLinesEnd(lines: seq<string>)
    ensures var s := JoinLines(lines); s == [] || s[|s| - 1] == '\n'
  {
  }

  lemma {:induction false} LastNewlineAt(s: string, j: nat)
    requires j <= |s|
    requires j == 0 || s[j - 1] == '\n'
    requires forall i :: j <= i < |s| ==> s[i] != '\n'
    ensures LastNewline(s, |s|) == j
  {
    LastNewlineFrom(s, |s|, j);
  }

  lemma {:induction false} LastNewlineFrom(s: string, n: nat, j: nat)
    requires j <= n <= |s|
    requires j == 0 || s[j - 1] == '\n'
    requires forall i :: j <= i < n ==> s[i] != '\n'
    ensures LastNewline(s, n) == j
    decreases n
  {
    if n > j {
      LastNewlineFrom(s, n - 1, j);
    } else if n > 0 {
      assert s[n - 1] == '\n';
    }
  }

  /** `GetHostsFile`: the lines each followed by `\n`; a missing file gives
      "" and one issue; any other I/O failure escapes to the caller. */
  method GetHostsFile(cache: Cache, read: LinesRead) returns (r: Result<string, Exception>)
    modifies cache`issues
    ensures read.Lines? ==> r == Ok(JoinLines(read.lines)) && cache.issues == old(cache.issues)
    ensures read.NotFound? ==> r == Ok("") && cache.issues == old(cache.issues) + [HostsMissingIssue]
    ensures read.ReadFailure? ==> r == Err(IOFailure) && cache.issues == old(cache.issues)
  {
    match read
    case NotFound =>
      cache.AddIssue(HostsMissingIssue);
      return Ok("");
    case ReadFailure =>
      return Err(IOFailure);
    case Lines(lines) =>
      var hostsFile := "";
      for i := 0 to |lines|
        invariant hostsFile == JoinLines(lines[..i])
      {
        assert lines[..i + 1][..i] == lines[..i];
        hostsFile := hostsFile + lines[i] + "\n";
      }
      assert lines[..|lines|] == lines;
      r := Ok(hostsFile);
  }
}
