/** The VXI-11 server as the firmware has it: one client, two packet buffers, a port counter. */
module VxiServer {
  import opened Bytes
  import opened Sockets
  import opened CyclicPort
  import opened RpcPackets
  import opened ScpiModel
  import opened RidenScpi
  import opened VxiModel

  class Server {
    const scpi: ScpiServer
    const vxiPort: CyclicWord
    const readBuffer: array<byte>
    const sendBuffer: array<byte>
    var client: Client
    var listening: word
    ghost var sent: seq<seq<byte>>
    ghost var closes: nat

    ghost predicate Valid()
      reads this, scpi, vxiPort
    {
      && scpi.Valid() && vxiPort.Valid()
      && readBuffer.Length == VXI_READ_SIZE && sendBuffer.Length == VXI_SEND_SIZE
      && readBuffer != sendBuffer
    }

    ghost function View(): Vxi
      requires Valid()
      reads this, scpi, vxiPort, readBuffer
    {
      Vxi(client, vxiPort.View(), listening, readBuffer[..], sent, closes)
    }

    constructor (handler: ScpiServer, first: word, last: word)
      requires handler.Valid()
      ensures Valid() && scpi == handler
      ensures fresh(vxiPort) && fresh(readBuffer) && fresh(sendBuffer)
      ensures client.NoClient? && sent == [] && closes == 0
      ensures {vxiPort.start, vxiPort.end} == {first, last}
    {
      scpi := handler;
      vxiPort := new CyclicWord(first, last);
      readBuffer := new byte[VXI_READ_SIZE](_ => 0);
      sendBuffer := new byte[VXI_SEND_SIZE](_ => 0);
      client := NoClient;
      listening := 0;
      sent, closes := [], 0;
    }

    method Available() returns (free: bool)
      ensures free <==> client.NoClient?
    {
      free := client.NoClient?;
    }

    method Allocate() returns (port: word)
      requires Valid()
      ensures port == if client.NoClient? then vxiPort.View().value else 0
    {
      port := 0;
      var free := Available();
      if free {
        port := vxiPort.data;
      }
    }

    /** begin(): the first call starts the server, later ones drop the client and move on. */
    method Begin(next: bool)
      requires Valid()
      modifies this, vxiPort
      ensures Valid()
      ensures if next then View() == BeginNext(old(View())) else View() == old(View()).(listening := vxiPort.data)
    {
      if next {
        client := NoClient;
        closes := closes + 1;
        var single := vxiPort.IsNoncyclic();
        if single {
          return;
        }
        var _ := vxiPort.PostIncrement();
      }
      listening := vxiPort.data;
    }

    /** send_vxi_packet: the handler has assigned `fields` behind the header and copied `data` behind them. */
    method Send(length: nat, ghost fields: seq<word>, ghost data: seq<byte>)
      requires Valid() && 1 <= |fields|
      requires length == 20 + 4 * |fields| + |data| && length + Padding(length) + 4 <= VXI_SEND_SIZE
      requires sendBuffer[..][24..4 + length] == Words(fields) + data
      modifies this`sent, sendBuffer
      ensures sent == old(sent) + [Frame(Reply(WordAt(readBuffer[..], 1), fields[0], fields[1..]) + data)]
    {
      var xid := LoadWord(readBuffer, 1);
      assert sendBuffer[24..4 + length] == sendBuffer[..][24..4 + length];
      JoinFields(ReplyHeader(xid), fields, data);
      ghost var frame := SendPacket(sendBuffer, xid, length);
      sent := sent + [frame];
    }

    method Respond(fields: seq<word>)
      requires Valid() && 1 <= |fields| <= 5
      modifies this`sent, sendBuffer
      ensures sent == old(sent) + [Frame(Reply(WordAt(readBuffer[..], 1), fields[0], fields[1..]))]
    {
      AssignFields(sendBuffer, 6, fields);
      assert sendBuffer[..][24..24 + 4 * |fields|] == Words(fields) + [];
      Send(20 + 4 * |fields|, fields, []);
      ghost var reply := Reply(WordAt(readBuffer[..], 1), fields[0], fields[1..]);
      assert reply + [] == reply;
    }

    /** Puts a terminator behind a string of the request; the header in front is out of its reach. */
    method Terminate(at: nat)
      requires Valid() && 60 <= at < VXI_READ_SIZE
      modifies readBuffer
      ensures readBuffer[..] == old(readBuffer[..])[at := 0]
      ensures WordAt(readBuffer[..], 1) == old(WordAt(readBuffer[..], 1))
      ensures at >= 64 ==> WordAt(readBuffer[..], 15) == old(WordAt(readBuffer[..], 15))
    {
      readBuffer[at] := 0;
      assert readBuffer[..][4..8] == old(readBuffer[..][4..8]);
      assert at >= 64 ==> readBuffer[..][60..64] == old(readBuffer[..][60..64]);
    }

    method CreateLink()
      requires Valid() && 60 + WordAt(readBuffer[..], 14) < VXI_READ_SIZE
      modifies this`sent, readBuffer, sendBuffer, scpi
      ensures Valid()
      ensures scpi.View() == old(Claim(scpi.View()).(linked := true))
      ensures sent == old(sent + [Frame(Reply(WordAt(readBuffer[..], 1), SUCCESS, [NO_ERROR, 0, 0, MAX_RECEIVE_SIZE]))])
      ensures readBuffer[..] == old(readBuffer[..])[60 + old(WordAt(readBuffer[..], 14)) := 0]
    {
      var granted := scpi.ClaimExternalControl();
      scpi.linked := true;
      var length := LoadWord(readBuffer, 14);
      Terminate(60 + length);
      Respond([SUCCESS, NO_ERROR, 0, 0, MAX_RECEIVE_SIZE]);
    }

    method DestroyLink()
      requires Valid()
      modifies this`sent, sendBuffer, scpi
      ensures Valid()
      ensures scpi.View() == old(Release(scpi.View()).(linked := false))
      ensures sent == old(sent + [Frame(Reply(WordAt(readBuffer[..], 1), SUCCESS, [NO_ERROR]))])
    {
      Respond([SUCCESS, NO_ERROR]);
      scpi.ReleaseExternalControl();
      scpi.linked := false;
    }

    method DevRead()
      requires Valid() && client.Client? && |ScpiModel.Read(scpi.View(), client.id, READ_CHUNK).1| <= 216
      modifies this`sent, sendBuffer, scpi
      ensures Valid()
      ensures scpi.View() == old(ScpiModel.Read(scpi.View(), client.id, READ_CHUNK).0)
      ensures var data := old(Values(ScpiModel.Read(scpi.View(), client.id, READ_CHUNK).1));
        sent == old(sent)
          + [Frame(Reply(old(WordAt(readBuffer[..], 1)), SUCCESS, [NO_ERROR, REASON_END, |data|]) + data)]
    {
      ghost var xid := WordAt(readBuffer[..], 1);
      var outbuffer := new byte[READ_CHUNK](_ => 0);
      var ok, len := scpi.Read(outbuffer, client.id, READ_CHUNK);
      ghost var fields, data := [SUCCESS, NO_ERROR, REASON_END, len], outbuffer[..len];
      ghost var before := sendBuffer[..];
      AssignFields(sendBuffer, 6, [SUCCESS, NO_ERROR, REASON_END, len]);
      CopyData(outbuffer, len);
      StretchLaidOut(before, 24, Words(fields), data);
      assert readBuffer[..] == old(readBuffer[..]);
      Send(36 + len, fields, data);
    }

    /** Copies the reply behind the fields of a read reply. */
    method CopyData(data: array<byte>, len: nat)
      requires Valid() && len <= data.Length && 40 + len <= VXI_SEND_SIZE && data != sendBuffer
      modifies sendBuffer
      ensures sendBuffer[..] == Overlay(old(sendBuffer[..]), 40, data[..len])
    {
      forall i | 0 <= i < len {
        sendBuffer[40 + i] := data[i];
      }
    }

    /** The right trim of the write handler: trailing white space is not handed to the parser. */
    method TrimmedLength(wlen: nat) returns (len: nat)
      requires Valid() && 64 + wlen <= VXI_READ_SIZE
      ensures len == |RightTrim(readBuffer[64..64 + wlen])|
    {
      ghost var data := readBuffer[64..64 + wlen];
      assert forall i | 0 <= i < wlen :: data[i] == readBuffer[64 + i];
      len := wlen;
      assert data[..len] == data;
      while len > 0 && IsSpace(readBuffer[64 + len - 1])
        invariant len <= wlen
        invariant RightTrim(data[..len]) == RightTrim(data)
      {
        TrimOne(data, len);
        len := len - 1;
      }
      TrimDone(data, len);
    }

    /** Trims the command of a write request and terminates it in place. */
    method TrimInPlace() returns (wlen: word, len: nat)
      requires Valid() && InnerFits(readBuffer[..][4..]) && Calls(readBuffer[..][4..], DEV_WRITE)
      modifies readBuffer
      ensures wlen == old(WordAt(readBuffer[..][4..], 14))
      ensures WordAt(readBuffer[..], 1) == old(WordAt(readBuffer[..], 1))
      ensures var data := RightTrim(WriteData(old(readBuffer[..][4..])));
        && len == |data| && 64 + len < readBuffer.Length && readBuffer[64..64 + len] == data
        && readBuffer[..] == old(readBuffer[..])[64 + len := 0]
    {
      ghost var buf := readBuffer[..];
      FieldInBuffer(buf, 14);
      WriteDataInBuffer(buf);
      wlen := LoadWord(readBuffer, 15);
      assert readBuffer[64..64 + wlen] == buf[64..64 + wlen];
      len := TrimmedLength(wlen);
      Terminate(64 + len);
      assert readBuffer[64..64 + len] == readBuffer[..][64..64 + len];
    }

    /** The first half of the write handler: trim, terminate, and give the command to the parser. */
    method HandOver(script: seq<ParserEvent>) returns (wlen: word)
      requires Valid() && client.Client? && InnerFits(readBuffer[..][4..]) && Calls(readBuffer[..][4..], DEV_WRITE)
      requires ServeFits(scpi.View(), readBuffer[..][4..], client.id, script)
      modifies readBuffer, scpi, scpi.writeBuffer, scpi.inputBuffer
      ensures Valid() && wlen == old(WordAt(readBuffer[..][4..], 14))
      ensures WordAt(readBuffer[..], 1) == old(WordAt(readBuffer[..], 1))
      ensures var data := RightTrim(WriteData(old(readBuffer[..][4..])));
        && scpi.View() == ScpiModel.Write(old(scpi.View()), VxiSession(client.id), data, script)
        && readBuffer[..] == old(readBuffer[..])[64 + |data| := 0]
    {
      ghost var before := scpi.View();
      var len;
      wlen, len := TrimInPlace();
      assert scpi.View() == before;
      scpi.Write(readBuffer, 64, len, VxiSession(client.id), script);
    }

    method DevWrite(script: seq<ParserEvent>)
      requires Valid() && client.Client? && InnerFits(readBuffer[..][4..]) && Calls(readBuffer[..][4..], DEV_WRITE)
      requires ServeFits(scpi.View(), readBuffer[..][4..], client.id, script)
      modifies this`sent, readBuffer, sendBuffer, scpi, scpi.writeBuffer, scpi.inputBuffer
      ensures Valid()
      ensures var packet := old(readBuffer[..][4..]);
        var data := RightTrim(WriteData(packet));
        && scpi.View() == ScpiModel.Write(old(scpi.View()), VxiSession(client.id), data, script)
        && sent == old(sent) + [Frame(Reply(old(WordAt(readBuffer[..], 1)), SUCCESS, [NO_ERROR, WordAt(packet, 14)]))]
        && readBuffer[..] == old(readBuffer[..])[64 + |data| := 0]
    {
      var wlen := HandOver(script);
      ghost var after := scpi.View();
      Respond([SUCCESS, NO_ERROR, wlen]);
      assert scpi.View() == after;
    }

    method HandlePacket(script: seq<ParserEvent>) returns (close: bool)
      requires Valid() && client.Client? && InnerFits(readBuffer[..][4..])
      requires ServeFits(scpi.View(), readBuffer[..][4..], client.id, script)
      modifies this`sent, readBuffer, sendBuffer, scpi, scpi.writeBuffer, scpi.inputBuffer
      ensures Valid()
      ensures var r := old(Serve(scpi.View(), readBuffer[..][4..], client.id, script));
        && scpi.View() == r.scpi && sent == old(sent) + [Frame(r.reply)] && close == r.close
        && readBuffer[..] == old(readBuffer[..4]) + old(Terminated(readBuffer[..][4..]))
    {
      close := false;
      ghost var buf := readBuffer[..];
      HeaderInBuffer(buf);
      TerminatedInBuffer(buf);
      var program := LoadWord(readBuffer, 4);
      var procedure := LoadWord(readBuffer, 6);
      if program != VXI_11_CORE {
        Respond([PROG_UNAVAIL]);
      } else if procedure == CREATE_LINK {
        FieldInBuffer(buf, 13);
        CreateLink();
      } else if procedure == DEV_READ {
        DevRead();
      } else if procedure == DEV_WRITE {
        DevWrite(script);
      } else if procedure == DESTROY_LINK {
        DestroyLink();
        close := true;
      } else {
        Respond([PROC_UNAVAIL]);
      }
    }

    /** Everything a turn may hand out fits the fixed buffers. */
    ghost predicate TurnFits(script: seq<ParserEvent>)
      requires Valid()
      reads this, scpi, scpi.writeBuffer, scpi.inputBuffer, vxiPort, readBuffer
    {
      && Ok(View()) && Servable(View())
      && (Serving(View()) ==> ServeFits(scpi.View(), Incoming(View()).buf[4..], client.id, script))
    }

    method Loop(incoming: Client, script: seq<ParserEvent>)
      requires Valid() && TurnFits(script)
      modifies this, vxiPort, readBuffer, sendBuffer, scpi, scpi.writeBuffer, scpi.inputBuffer
      ensures Valid()
      ensures (View(), scpi.View()) == Turn(old(View()), old(scpi.View()), incoming, script)
    {
      if client.Client? {
        var close := false;
        if !client.connected {
          close := true;
          scpi.linked := false;
        } else {
          var rest, len := ReceivePacket(readBuffer, client.rx);
          client := client.(rx := rest);
          if len > 0 {
            close := HandlePacket(script);
          }
        }
        if close {
          Begin(true);
        }
      } else {
        client := incoming;
      }
    }

    method DisconnectClient(ip: nat)
      requires Valid()
      modifies this, scpi
      ensures Valid()
      ensures (View(), scpi.View()) == WebDisconnect(old(View()), old(scpi.View()), ip)
    {
      if client.Client? && client.connected && client.ip == ip {
        client := NoClient;
        scpi.ReleaseExternalControl();
        scpi.linked := false;
      }
    }
  }

  lemma StretchLaidOut(buf: seq<byte>, at: nat, a: seq<byte>, b: seq<byte>)
    requires at + |a| + |b| <= |buf|
    ensures Overlay(Overlay(buf, at, a), at + |a|, b)[at..at + |a| + |b|] == a + b
  {
  }

  /** The data of a write request as the handler addresses it, before and after the terminator. */
  lemma WriteDataInBuffer(buf: seq<byte>)
    requires |buf| == VXI_READ_SIZE && InnerFits(buf[4..]) && Calls(buf[4..], DEV_WRITE)
    ensures var data := WriteData(buf[4..]);
      && buf[64..64 + |data|] == data
      && buf[64 + |RightTrim(data)| := 0][64..64 + |RightTrim(data)|] == RightTrim(data)
  {
  }

  lemma TrimOne(data: seq<byte>, len: nat)
    requires 0 < len <= |data| && IsSpace(data[len - 1])
    ensures RightTrim(data[..len]) == RightTrim(data[..len - 1])
  {
    assert data[..len][..len - 1] == data[..len - 1];
  }

  lemma TrimDone(data: seq<byte>, len: nat)
    requires len <= |data| && (len > 0 ==> !IsSpace(data[len - 1]))
    ensures RightTrim(data[..len]) == data[..len]
  {
  }

  /** A terminator in the packet is a terminator in the buffer. */
  lemma TerminatorInBuffer(buf: seq<byte>, at: nat)
    requires 4 + at < |buf|
    ensures buf[4 + at := 0] == buf[..4] + buf[4..][at := 0]
  {
  }

  /** The packet after its string has been terminated, as the buffer shows it. */
  lemma TerminatedInBuffer(buf: seq<byte>)
    requires |buf| == VXI_READ_SIZE && InnerFits(buf[4..])
    ensures buf[..4] + Terminated(buf[4..])
         == if Calls(buf[4..], CREATE_LINK) then buf[60 + WordAt(buf[4..], 13) := 0]
            else if Calls(buf[4..], DEV_WRITE) then buf[64 + |RightTrim(WriteData(buf[4..]))| := 0]
            else buf
  {
    if Calls(buf[4..], CREATE_LINK) {
      TerminatorInBuffer(buf, 56 + WordAt(buf[4..], 13));
    } else if Calls(buf[4..], DEV_WRITE) {
      TerminatorInBuffer(buf, 60 + |RightTrim(WriteData(buf[4..]))|);
    } else {
      assert buf[..4] + buf[4..] == buf;
    }
  }

  /** Transaction id, program and procedure. */
  lemma HeaderInBuffer(buf: seq<byte>)
    requires |buf| == VXI_READ_SIZE
    ensures WordAt(buf[4..], 0) == WordAt(buf, 1)
    ensures WordAt(buf[4..], 3) == WordAt(buf, 4) && WordAt(buf[4..], 5) == WordAt(buf, 6)
  {
    FieldInBuffer(buf, 0);
    FieldInBuffer(buf, 3);
    FieldInBuffer(buf, 5);
  }

  lemma JoinFields(header: seq<word>, fields: seq<word>, data: seq<byte>)
    requires 1 <= |fields|
    ensures Words(header) + (Words(fields) + data) == Words(header + [fields[0]] + fields[1..]) + data
  {
    WordsConcat(header, fields);
    assert header + [fields[0]] + fields[1..] == header + fields;
    assert Words(header) + (Words(fields) + data) == Words(header) + Words(fields) + data;
  }

  /** Field `k` of the packet is word `k + 1` of the buffer. */
  lemma FieldInBuffer(buf: seq<byte>, k: nat)
    requires 4 * k + 8 <= |buf|
    ensures WordAt(buf[4..], k) == WordAt(buf, k + 1)
  {
    assert buf[4..][4 * k..4 * k + 4] == buf[4 * (k + 1)..4 * (k + 1) + 4];
  }

  /** The reply fits the send buffer, and what the parser emits for a write fits the output buffer. */
  predicate ServeFits(s: Scpi, packet: seq<byte>, conn: nat, script: seq<ParserEvent>)
    requires InnerFits(packet)
  {
    && (Calls(packet, DEV_READ) ==> |ScpiModel.Read(s, conn, READ_CHUNK).1| <= 216)
    && (Calls(packet, DEV_WRITE) && Accepts(RightTrim(WriteData(packet))) ==>
          var me := VxiSession(conn);
          Fits(Start(WriteInput(s, me, RightTrim(WriteData(packet))), me), me, script))
  }
}
