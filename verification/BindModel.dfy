/** The port mapper front end (section 3 of RFC 1833): which port a GETPORT call is told. */
module BindModel {
  import opened Bytes
  import opened Sockets
  import opened RpcPackets
  import opened VxiModel

  const PORTMAP: word := 0x186A0
  const GET_PORT: word := 3

  datatype BindReply = BindReply(onUdp: bool, packet: seq<byte>)

  datatype Bind = Bind(
    udpBuf: seq<byte>,        // udp_read_buffer
    tcpBuf: seq<byte>,        // tcp_read_buffer
    replies: seq<BindReply>)  // bookkeeping

  predicate BindOk(b: Bind) {
    |b.udpBuf| == UDP_READ_SIZE && |b.tcpBuf| == TCP_READ_SIZE
  }

  predicate Available(v: Vxi) {
    v.client.NoClient?
  }

  function Allocate(v: Vxi): word {
    if Available(v) then v.port.value else 0
  }

  /** process_request followed by the reply header: a bind reply of 28 bytes. */
  function Process(packet: seq<byte>, v: Vxi): (reply: seq<byte>)
    requires |packet| >= 24
    ensures |reply| == 28
  {
    var xid, port := WordAt(packet, 0), Allocate(v);
    if WordAt(packet, 3) != PORTMAP then Reply(xid, PROG_UNAVAIL, [0])
    else if WordAt(packet, 5) != GET_PORT then Reply(xid, PROC_UNAVAIL, [0])
    else if port == 0 then Reply(xid, GARBAGE_ARGS, [0])
    else Reply(xid, SUCCESS, [port])
  }

  /** One call of RPC_Bind_Server::loop: requests wait until the VXI server is free, UDP goes first. */
  function BindTurn(b: Bind, v: Vxi, udp: seq<byte>, tcp: Client): (c: Bind)
    requires BindOk(b)
    ensures BindOk(c)
  {
    if !Available(v) then
      b
    else if udp != [] then
      var buf := Overlay(b.udpBuf, 0, udp[..Min(UDP_READ_SIZE, |udp|)]);
      b.(udpBuf := buf, replies := b.replies + [BindReply(true, Process(buf, v))])
    else if tcp.Client? then
      var g := GetPacket(b.tcpBuf, tcp.rx);
      if g.len > 0 then
        b.(tcpBuf := g.buf, replies := b.replies + [BindReply(false, Process(g.buf[4..], v))])
      else
        b.(tcpBuf := g.buf)
    else
      b
  }

  /** Status and port of a bind reply as the caller finds them. */
  function Status(reply: seq<byte>): word
    requires |reply| == 28
  {
    WordAt(reply, 5)
  }

  function PortTold(reply: seq<byte>): word
    requires |reply| == 28
  {
    WordAt(reply, 6)
  }

  /** A port is told exactly when a free server was asked for its port and has one; otherwise it is 0. */
  lemma ProcessTells(packet: seq<byte>, v: Vxi)
    requires |packet| >= 24
    ensures var r := Process(packet, v);
      && WordAt(r, 0) == WordAt(packet, 0) && WordAt(r, 1) == REPLY && WordAt(r, 2) == MSG_ACCEPTED
      && (Status(r) == SUCCESS <==>
            WordAt(packet, 3) == PORTMAP && WordAt(packet, 5) == GET_PORT && Available(v) && v.port.value != 0)
      && PortTold(r) == if Status(r) == SUCCESS then v.port.value else 0
  {
    var xid, port, r := WordAt(packet, 0), Allocate(v), Process(packet, v);
    assert r + [] == r;
    ReplyFields(xid, PROG_UNAVAIL, [0], []);
    ReplyFields(xid, PROC_UNAVAIL, [0], []);
    ReplyFields(xid, GARBAGE_ARGS, [0], []);
    ReplyFields(xid, SUCCESS, [port], []);
  }

  /**
   * Which refusal a caller gets: 1 exactly for another program than the port mapper (100000), 3 exactly for
   * another of its procedures than 3, and 4 exactly for a proper call when there is no port to tell.
   */
  lemma RefusalsTold(packet: seq<byte>, v: Vxi)
    requires |packet| >= 24
    ensures var status := Status(Process(packet, v));
      && (status == 1 <==> WordAt(packet, 3) != 100000)
      && (status == 3 <==> WordAt(packet, 3) == 100000 && WordAt(packet, 5) != 3)
      && (status == 4 <==> WordAt(packet, 3) == 100000 && WordAt(packet, 5) == 3
                           && (v.client.Client? || v.port.value == 0))
      && status in {0, 1, 3, 4}
  {
    var xid, port, r := WordAt(packet, 0), Allocate(v), Process(packet, v);
    assert r + [] == r;
    ReplyFields(xid, PROG_UNAVAIL, [0], []);
    ReplyFields(xid, PROC_UNAVAIL, [0], []);
    ReplyFields(xid, GARBAGE_ARGS, [0], []);
    ReplyFields(xid, SUCCESS, [port], []);
  }

  /**
   * While the VXI server has a client, calls are left waiting: nothing is read and nothing answered. A free server
   * answers every datagram, and says nothing to a connection that says nothing.
   */
  lemma CallsWaitForFreeServer(b: Bind, v: Vxi, udp: seq<byte>, tcp: Client)
    requires BindOk(b)
    ensures v.client.Client? ==> BindTurn(b, v, udp, tcp) == b
    ensures v.client.NoClient? && udp != [] ==> |BindTurn(b, v, udp, tcp).replies| == |b.replies| + 1
    ensures udp == [] && (tcp.NoClient? || tcp.rx == []) ==> BindTurn(b, v, udp, tcp).replies == b.replies
  {
    if tcp.Client? && tcp.rx == [] {
      NothingAtHand(b.tcpBuf);
    }
  }

  // ----- A call does not see what an earlier one left in the buffer, if it is long enough -----

  lemma CallAnsweredAlone(call: seq<byte>, stale: seq<byte>, v: Vxi)
    requires |call| >= 24
    ensures Process(call + stale, v) == Process(call, v)
  {
    WordInPrefix(call, stale, 0);
    WordInPrefix(call, stale, 3);
    WordInPrefix(call, stale, 5);
  }

  /** A datagram of at least 24 bytes is answered from its own bytes. */
  lemma DatagramAnsweredAlone(b: Bind, v: Vxi, udp: seq<byte>, tcp: Client)
    requires BindOk(b) && Available(v) && 24 <= |udp|
    ensures BindTurn(b, v, udp, tcp).replies
         == b.replies + [BindReply(true, Process(udp[..Min(UDP_READ_SIZE, |udp|)], v))]
  {
    var call := udp[..Min(UDP_READ_SIZE, |udp|)];
    var buf := Overlay(b.udpBuf, 0, call);
    assert buf == call + b.udpBuf[|call|..];
    CallAnsweredAlone(call, b.udpBuf[|call|..], v);
  }

  /** So is a record of 24 to 60 bytes. */
  lemma RecordAnsweredAlone(b: Bind, v: Vxi, tcp: Client, call: seq<byte>, tail: seq<byte>)
    requires BindOk(b) && Available(v) && 24 <= |call| <= TCP_READ_SIZE - 4
    requires tcp.Client? && tcp.rx == Record(call) + tail
    ensures BindTurn(b, v, [], tcp).replies == b.replies + [BindReply(false, Process(call, v))]
  {
    GetRecord(b.tcpBuf, call, tail);
    var packet := GetPacket(b.tcpBuf, tcp.rx).buf[4..];
    assert packet == call + packet[|call|..];
    CallAnsweredAlone(call, packet[|call|..], v);
  }

  /** Every call of `n` bytes is answered alike whatever lies behind it in the datagram buffer. */
  ghost predicate StaleUnseen(n: nat, v: Vxi)
    requires n <= UDP_READ_SIZE
  {
    forall call: seq<byte>, a: seq<byte>, b: seq<byte>
      {:trigger Process(call + a, v), Process(call + b, v)}
      | |call| == n && |a| == UDP_READ_SIZE - n && |b| == UDP_READ_SIZE - n
      :: Process(call + a, v) == Process(call + b, v)
  }

  /** With a port to tell, 24 bytes is where that starts: a shorter call may be answered either way. */
  lemma StaleUnseenFrom24(n: nat, v: Vxi)
    requires n <= UDP_READ_SIZE && Available(v) && v.port.value != 0
    ensures StaleUnseen(n, v) <==> n >= 24
  {
    if n >= 24 {
      forall call: seq<byte>, a: seq<byte>, b: seq<byte>
        | |call| == n && |a| == UDP_READ_SIZE - n && |b| == UDP_READ_SIZE - n
        ensures Process(call + a, v) == Process(call + b, v)
      {
        CallAnsweredAlone(call, a, v);
        CallAnsweredAlone(call, b, v);
      }
    } else {
      var known, other := GetPortCall(GET_PORT), GetPortCall(0);
      assert known[..n] == other[..n];
      assert known == known[..n] + known[n..] && other == known[..n] + other[n..];
      ProcessTells(known, v);
      ProcessTells(other, v);
    }
  }

  /** A full datagram buffer that asks PORTMAP for this procedure. */
  function GetPortCall(procedure: word): (buf: seq<byte>)
    ensures |buf| == UDP_READ_SIZE && WordAt(buf, 3) == PORTMAP && WordAt(buf, 5) == procedure
    ensures buf[..20] == Words([0, 0, 2, PORTMAP, 2])
  {
    var front := Words([0, 0, 2, PORTMAP, 2]);
    var ws := [0, 0, 2, PORTMAP, 2, procedure];
    var buf := Words(ws) + Zeros(40);
    WordsAt(ws, Zeros(40), 3);
    WordsAt(ws, Zeros(40), 5);
    WordsConcat([0, 0, 2, PORTMAP, 2], [procedure]);
    assert ws == [0, 0, 2, PORTMAP, 2] + [procedure];
    buf
  }
}
