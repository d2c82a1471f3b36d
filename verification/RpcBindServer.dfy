/** The port mapper as the firmware has it: two front ends over four fixed buffers. */
module RpcBindServer {
  import opened Bytes
  import opened Sockets
  import opened RpcPackets
  import opened BindModel
  import opened VxiServer

  class BindServer {
    const vxi: Server
    const udpRead: array<byte>
    const udpSend: array<byte>
    const tcpRead: array<byte>
    const tcpSend: array<byte>
    ghost var replies: seq<BindReply>

    ghost predicate Valid()
      reads this, vxi, vxi.scpi, vxi.vxiPort
    {
      && vxi.Valid()
      && udpRead.Length == UDP_READ_SIZE && udpSend.Length == UDP_SEND_SIZE
      && tcpRead.Length == TCP_READ_SIZE && tcpSend.Length == TCP_SEND_SIZE
      && udpRead != udpSend && udpRead != tcpRead && udpRead != tcpSend
      && udpSend != tcpRead && udpSend != tcpSend && tcpRead != tcpSend
      && vxi.readBuffer != udpRead && vxi.readBuffer != udpSend && vxi.readBuffer != tcpRead && vxi.readBuffer != tcpSend
    }

    ghost function View(): Bind
      reads this, udpRead, tcpRead
    {
      Bind(udpRead[..], tcpRead[..], replies)
    }

    constructor (server: Server)
      requires server.Valid()
      ensures Valid() && vxi == server && replies == []
      ensures fresh(udpRead) && fresh(udpSend) && fresh(tcpRead) && fresh(tcpSend)
    {
      vxi := server;
      udpRead := new byte[UDP_READ_SIZE](_ => 0);
      udpSend := new byte[UDP_SEND_SIZE](_ => 0);
      tcpRead := new byte[TCP_READ_SIZE](_ => 0);
      tcpSend := new byte[TCP_SEND_SIZE](_ => 0);
      replies := [];
    }

    /**
     * process_request: looks at the request in `request` and assigns status and port in `response`, both
     * packets starting at word `first` of their buffers.
     */
    method ProcessRequest(request: array<byte>, response: array<byte>, first: nat)
      requires Valid() && first <= 1 && request != response
      requires request.Length >= 4 * first + 24 && response.Length >= 4 * first + 28
      modifies response
      ensures var reply := Process(old(request[..])[4 * first..], old(vxi.View()));
        Words(ReplyHeader(WordAt(old(request[..])[4 * first..], 0))) + response[..][4 * first + 20..4 * first + 28] == reply
    {
      ghost var packet := request[..][4 * first..];
      FieldAt(request[..], first, 0);
      FieldAt(request[..], first, 3);
      FieldAt(request[..], first, 5);
      var rc, port := SUCCESS, 0;
      var program := LoadWord(request, first + 3);
      var procedure := LoadWord(request, first + 5);
      if program != PORTMAP {
        rc := PROG_UNAVAIL;
      } else if procedure != GET_PORT {
        rc := PROC_UNAVAIL;
      } else {
        port := vxi.Allocate();
        if port == 0 {
          rc := GARBAGE_ARGS;
        }
      }
      AssignFields(response, first + 5, [rc, port]);
      var fields := Words([rc, port]);
      assert response[..][4 * first + 20..4 * first + 28] == fields;
      JoinFields(ReplyHeader(WordAt(packet, 0)), [rc, port], []);
      assert fields + [] == fields;
      assert [rc, port][1..] == [port];
      assert Process(packet, vxi.View()) == Reply(WordAt(packet, 0), rc, [port]);
    }

    /** A datagram: the reply goes out without a record mark. */
    method ServeUdp(udp: seq<byte>) returns (datagram: seq<byte>)
      requires Valid()
      modifies udpRead, udpSend
      ensures udpRead[..] == Overlay(old(udpRead[..]), 0, udp[..Min(UDP_READ_SIZE, |udp|)])
      ensures datagram == Process(udpRead[..], vxi.View())
    {
      var _ := ReadBytes(udpRead, 0, UDP_READ_SIZE, udp);
      assert udpRead[..][0..] == udpRead[..];
      ProcessRequest(udpRead, udpSend, 0);
      var xid := LoadWord(udpRead, 0);
      ghost var before := udpSend[..];
      FillResponseHeader(udpSend, 0, xid);
      datagram := udpSend[..][..28];
      HeaderThenBody(before, Words(ReplyHeader(xid)));
    }

    /** A connection: its record is read, and answered unless it is empty. */
    method ServeTcp(rx: seq<byte>) returns (frame: seq<byte>)
      requires Valid()
      modifies tcpRead, tcpSend
      ensures var g := GetPacket(old(tcpRead[..]), rx);
        && tcpRead[..] == g.buf
        && frame == if g.len > 0 then Frame(Process(g.buf[4..], vxi.View())) else []
    {
      var rest, len := ReceivePacket(tcpRead, rx);
      frame := [];
      if len > 0 {
        frame := AnswerTcp();
      }
    }

    /** Answers the record in the buffer. */
    method AnswerTcp() returns (frame: seq<byte>)
      requires Valid()
      modifies tcpSend
      ensures frame == Frame(Process(tcpRead[..][4..], vxi.View()))
    {
      ProcessRequest(tcpRead, tcpSend, 1);
      FieldAt(tcpRead[..], 1, 0);
      var xid := LoadWord(tcpRead, 1);
      assert tcpSend[24..32] == tcpSend[..][24..32];
      frame := SendPacket(tcpSend, xid, 28);
    }

    /** One turn; `sent` is the datagram or the record that goes out, if any. */
    method Loop(udp: seq<byte>, tcp: Client) returns (sent: seq<byte>)
      requires Valid()
      modifies this, udpRead, udpSend, tcpRead, tcpSend
      ensures Valid() && View() == BindTurn(old(View()), vxi.View(), udp, tcp)
      ensures sent ==
        if replies == old(replies) then []
        else var r := replies[|replies| - 1]; if r.onUdp then r.packet else Frame(r.packet)
    {
      sent := [];
      var free := vxi.Available();
      if !free {
        return;
      }
      if udp != [] {
        sent := ServeUdp(udp);
        replies := replies + [BindReply(true, sent)];
      } else if tcp.Client? {
        sent := ServeTcp(tcp.rx);
        if sent != [] {
          replies := replies + [BindReply(false, Process(tcpRead[..][4..], vxi.View()))];
        }
      }
    }
  }

  lemma HeaderThenBody(buf: seq<byte>, header: seq<byte>)
    requires |header| == 20 && |buf| >= 28
    ensures Overlay(buf, 0, header)[..28] == header + buf[20..28]
  {
  }

  lemma FieldAt(buf: seq<byte>, first: nat, k: nat)
    requires 4 * (first + k) + 4 <= |buf|
    ensures WordAt(buf[4 * first..], k) == WordAt(buf, first + k)
  {
    assert buf[4 * first..][4 * k..4 * k + 4] == buf[4 * (first + k)..4 * (first + k) + 4];
  }
}
