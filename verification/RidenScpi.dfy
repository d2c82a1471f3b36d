/** The SCPI front end as the firmware has it: fixed buffers and flags changed in place. */
module RidenScpi {
  import opened Bytes
  import opened Sockets
  import opened ScpiModel

  class ScpiServer {
    const writeBuffer: array<Cell>
    const inputBuffer: array<Cell>
    var writeBufferLength: nat
    var position: nat
    var externalControl: bool
    var externalOutputReady: bool
    var client: Client
    ghost var linked: bool
    ghost var log: seq<Event>

    ghost predicate Valid()
      reads this
    {
      && writeBuffer.Length == WRITE_BUFFER_LENGTH && inputBuffer.Length == INPUT_BUFFER_LENGTH
      && writeBuffer != inputBuffer
      && writeBufferLength <= WRITE_BUFFER_LENGTH && position <= INPUT_BUFFER_LENGTH
    }

    ghost function View(): Scpi
      requires Valid()
      reads this, writeBuffer, inputBuffer
    {
      Scpi(writeBuffer[..writeBufferLength], externalOutputReady, externalControl, inputBuffer[..position], client,
           linked, log)
    }

    constructor ()
      ensures Valid() && View() == Initial
      ensures fresh(writeBuffer) && fresh(inputBuffer)
    {
      writeBuffer := new Cell[WRITE_BUFFER_LENGTH](_ => Cell(0, RawSession(0)));
      inputBuffer := new Cell[INPUT_BUFFER_LENGTH](_ => Cell(0, RawSession(0)));
      writeBufferLength, position := 0, 0;
      externalControl, externalOutputReady := false, false;
      client := NoClient;
      linked, log := false, [];
    }

    method ScpiWrite(data: seq<byte>, origin: Origin)
      requires Valid() && writeBufferLength + |data| <= WRITE_BUFFER_LENGTH
      modifies this, writeBuffer
      ensures Valid() && View() == Append(old(View()), Tag(data, origin))
    {
      externalOutputReady := false;
      forall i | 0 <= i < |data| {
        writeBuffer[writeBufferLength + i] := Cell(data[i], origin);
      }
      writeBufferLength := writeBufferLength + |data|;
      log := log + [Appended(Tag(data, origin))];
      assert writeBuffer[..writeBufferLength] == old(writeBuffer[..writeBufferLength]) + Tag(data, origin);
    }

    method ScpiFlush()
      requires Valid()
      modifies this
      ensures Valid() && View() == Flush(old(View()))
    {
      log := log + [Flushed];
      if externalControl {
        externalOutputReady := true;
        return;
      }
      if client.Client? {
        log := log + [SentRaw(client.id, writeBuffer[..writeBufferLength])];
        writeBufferLength := 0;
      }
    }

    /** SCPI_Input: the library is the script of what it calls back while it works on the input buffer. */
    method ScpiInput(origin: Origin, script: seq<ParserEvent>)
      requires Valid() && Fits(Start(View(), origin), origin, script)
      modifies this, writeBuffer
      ensures Valid() && View() == ParserInput(old(View()), origin, script)
    {
      log := log + [Parsed(origin, inputBuffer[..position], client.Client?, linked)];
      position := 0;
      assert View() == Start(old(View()), origin);
      var k := 0;
      while k < |script|
        invariant k <= |script| && Valid()
        invariant Fits(View(), origin, script[k..])
        invariant React(View(), origin, script[k..]) == ParserInput(old(View()), origin, script)
      {
        assert script[k..][0] == script[k] && script[k..][1..] == script[k + 1..];
        match script[k] {
          case Emit(text) => ScpiWrite(text, origin);
          case EndOfReply => ScpiFlush();
          case PeerLost => client := NoClient;
        }
        k := k + 1;
      }
    }

    // ----- The interface for the VXI server -----

    method ClaimExternalControl() returns (granted: bool)
      requires Valid()
      modifies this`externalControl
      ensures granted && View() == Claim(old(View()))
    {
      externalControl := true;
      granted := true;
    }

    method ReleaseExternalControl()
      requires Valid()
      modifies this`externalControl
      ensures View() == Release(old(View()))
    {
      externalControl := false;
    }

    /** The command is the stretch of `data` that starts at `from`. */
    method Write(data: array<byte>, from: nat, len: nat, origin: Origin, script: seq<ParserEvent>)
      requires Valid() && from + len <= data.Length
      requires Accepts(data[from..from + len]) ==>
        Fits(Start(WriteInput(View(), origin, data[from..from + len]), origin), origin, script)
      modifies this, writeBuffer, inputBuffer
      ensures Valid()
      ensures View() == ScpiModel.Write(old(View()), origin, old(data[from..from + len]), script)
    {
      if len == 0 || len > INPUT_BUFFER_LENGTH {
        return;
      }
      forall i | 0 <= i < len {
        inputBuffer[i] := Cell(data[from + i], origin);
      }
      position := len;
      externalControl := true;
      assert inputBuffer[..position] == Tag(old(data[from..from + len]), origin);
      assert View() == WriteInput(old(View()), origin, old(data[from..from + len]));
      ScpiInput(origin, script);
    }

    /** On success the reply is copied out and the output buffer is empty again. */
    method Read(data: array<byte>, ghost reader: nat, maxLen: nat) returns (ok: bool, len: nat)
      requires Valid() && maxLen <= data.Length
      modifies this, data
      ensures Valid() && len <= data.Length
      ensures ok <==> Readable(old(View()), maxLen)
      ensures View() == ScpiModel.Read(old(View()), reader, maxLen).0
      ensures data[..len] == Values(ScpiModel.Read(old(View()), reader, maxLen).1)
    {
      len := 0;
      if !externalControl || writeBufferLength > maxLen || !externalOutputReady {
        ok := false;
        return;
      }
      forall i | 0 <= i < writeBufferLength {
        data[i] := writeBuffer[i].value;
      }
      len := writeBufferLength;
      assert writeBuffer[..len] == old(writeBuffer[..len]) && inputBuffer[..position] == old(inputBuffer[..position]);
      log := log + [ReadByVxi(reader, writeBuffer[..len])];
      writeBufferLength := 0;
      ok := true;
      assert View() == Note(old(View()).(output := []), ReadByVxi(reader, old(View()).output));
    }

    // ----- The raw socket server -----

    method ResetBuffers()
      requires Valid()
      modifies this
      ensures Valid() && View() == Reset(old(View()))
    {
      log := log + [Discarded(writeBuffer[..writeBufferLength])];
      writeBufferLength := 0;
      position := 0;
    }

    method DisconnectClient(ip: nat)
      requires Valid()
      modifies this
      ensures Valid() && View() == Disconnect(old(View()), ip)
    {
      if client.Client? && client.connected && client.ip == ip {
        client := NoClient;
      }
    }

    method StoreByte(b: byte)
      requires Valid() && client.Client? && position < INPUT_BUFFER_LENGTH
      modifies this`position, inputBuffer
      ensures Valid()
      ensures View() == old(View()).(input := old(View()).input + [Cell(b, RawSession(client.id))])
    {
      inputBuffer[position] := Cell(b, RawSession(client.id));
      position := position + 1;
      assert inputBuffer[..position] == old(inputBuffer[..position]) + [Cell(b, RawSession(client.id))];
    }

    /** The byte loop: stops behind a newline, at the end of the bytes at hand, or when the buffer is full. */
    method ReadLine(script: seq<ParserEvent>)
      requires Valid() && client.Client? && client.rx != []
      requires ReceiveFits(View(), script)
      modifies this, writeBuffer, inputBuffer
      ensures Valid() && View() == Receive(old(View()), script)
    {
      ghost var before := View();
      ghost var me := RawSession(client.id);
      var reading := true;
      while reading && client.rx != []
        invariant Valid()
        invariant reading ==>
          && client.Client? && client == before.client.(rx := client.rx)
          && View() == before.(input := View().input, client := client)
          && TakeBytes(View().input, client.rx, me) == TakeBytes(before.input, before.client.rx, me)
        invariant !reading ==> View() == Receive(before, script)
        decreases reading, if client.Client? then |client.rx| else 0
      {
        var b := client.rx[0];
        client := client.(rx := client.rx[1..]);
        if position >= INPUT_BUFFER_LENGTH {
          position := 0;
          client := NoClient;
          reading := false;
        } else {
          StoreByte(b);
          if b == NEWLINE {
            assert View() == LineInput(before, View().input, client.rx);
            ScpiInput(RawSession(client.id), script);
            reading := false;
          }
        }
      }
    }

    method Loop(incoming: Client, script: seq<ParserEvent>)
      requires Valid() && LoopFits(View(), incoming, script)
      modifies this, writeBuffer, inputBuffer
      ensures Valid() && View() == ScpiModel.Loop(old(View()), incoming, script)
    {
      if externalControl {
        if client.Client? {
          client := NoClient;
        }
        return;
      }
      if incoming.Client? {
        if client.NoClient? {
          client := incoming;
          ResetBuffers();
        }
      }
      if client.Client? && client.rx != [] {
        ReadLine(script);
      }
      if client.Client? && !client.connected {
        client := NoClient;
      }
    }
  }

  /** What the parser emits in this turn, if it is started at all, fits the output buffer. */
  predicate ReceiveFits(s: Scpi, script: seq<ParserEvent>)
    requires s.client.Client?
  {
    var me := RawSession(s.client.id);
    match TakeBytes(s.input, s.client.rx, me)
    case Line(input, rest) => Fits(Start(LineInput(s, input, rest), me), me, script)
    case _ => true
  }

  predicate LoopFits(s: Scpi, incoming: Client, script: seq<ParserEvent>) {
    var t := Accept(s, incoming);
    !s.external && t.client.Client? && t.client.rx != [] ==> ReceiveFits(t, script)
  }
}
