/** Who is in charge of the parser, and for how long. */
module ControlTheorems {
  import opened Bytes
  import opened Sockets
  import opened ScpiModel
  import opened ScpiTheorems
  import opened RpcPackets
  import opened VxiModel
  import opened VxiTheorems
  import opened MainLoop

  /** The two ways external control is given up: DESTROY_LINK, and a web order that hits the VXI client. */
  predicate Releases(d: Dongle, a: Action)
    requires DongleOk(d)
  {
    && Enabled(d, a)
    && ((a.VxiTurn? && Serving(d.vxi) && Calls(Incoming(d.vxi).buf[4..], DESTROY_LINK))
        || (a.HttpTurn? && a.order.DropVxiClient? && IsPeer(d.vxi.client, a.order.ip)))
  }

  /** Under external control the parser sends nothing to the raw client. */
  lemma {:induction false} ReactServesNoRaw(s: Scpi, origin: Origin, script: seq<ParserEvent>)
    requires s.external
    ensures NoRawService(React(s, origin, script).log, |s.log|) && s.log <= React(s, origin, script).log
    ensures React(s, origin, script).external
    decreases |script|
  {
    if script != [] {
      var t := Handle(s, origin, script[0]);
      ReactServesNoRaw(t, origin, script[1..]);
    }
  }

  /** From entry `from` on no raw line was parsed and nothing was sent to a raw client. */
  ghost predicate NoRawService(log: seq<Event>, from: nat) {
    forall k | from <= k < |log| :: !log[k].SentRaw? && !(log[k].Parsed? && log[k].origin.RawSession?)
  }

  lemma ServeServesNoRaw(s: Scpi, packet: seq<byte>, conn: nat, script: seq<ParserEvent>)
    requires InnerFits(packet) && s.external
    ensures var t := Serve(s, packet, conn, script).scpi;
      && s.log <= t.log && NoRawService(t.log, |s.log|)
      && (t.external <==> !Calls(packet, DESTROY_LINK))
  {
    if Calls(packet, DEV_WRITE) {
      var data := RightTrim(WriteData(packet));
      if Accepts(data) {
        var me := VxiSession(conn);
        ReactServesNoRaw(Start(WriteInput(s, me, data), me), me, script);
      }
    }
  }

  /** Control is kept unless it was released, and the raw server has served nobody. */
  ghost predicate Keeps(s: Scpi, t: Scpi, released: bool) {
    (t.external <==> !released) && s.log <= t.log && NoRawService(t.log, |s.log|)
  }

  /** External control ends exactly with a release, and meanwhile the raw server serves nobody. */
  lemma ControlEndsOnlyByRelease(d: Dongle, a: Action)
    requires Sound(d) && d.scpi.external
    ensures Keeps(d.scpi, Step(d, a).scpi, Releases(d, a))
  {
    if a.VxiTurn? && Enabled(d, a) && Serving(d.vxi) {
      ServeServesNoRaw(d.scpi, Incoming(d.vxi).buf[4..], d.vxi.client.id, a.script);
    }
  }

  ghost predicate NeverReleased(d: Dongle, run: seq<Action>)
    requires DongleOk(d)
  {
    forall k | 0 <= k < |run| :: !Releases(After(d, run[..k]), run[k])
  }

  /**
   * Once external control is taken the raw server stays disabled over every run without a release: while a
   * link is up, but also after a VXI-11 peer was lost without DESTROY_LINK.
   */
  lemma {:induction false} RawStaysDisabled(d: Dongle, run: seq<Action>)
    requires Sound(d) && d.scpi.external && NeverReleased(d, run)
    ensures Keeps(d.scpi, After(d, run).scpi, false)
    ensures After(d, run).phase in {AtBridge, AtBind, AtVxi} ==> After(d, run).scpi.client.NoClient?
    decreases |run|
  {
    RunSound(d, run);
    if run != [] {
      var before, a := run[..|run| - 1], run[|run| - 1];
      forall k | 0 <= k < |before| ensures !Releases(After(d, before[..k]), before[k]) {
        assert before[..k] == run[..k];
      }
      RawStaysDisabled(d, before);
      RunSound(d, before);
      ControlEndsOnlyByRelease(After(d, before), a);
    }
  }

  /** Losing the peer, by itself and through the close the loop then makes, is no release. */
  lemma LostPeerKeepsControl(d: Dongle, loss: Action, incoming: Client, script: seq<ParserEvent>)
    requires Sound(d) && d.scpi.external && d.phase == AtVxi && (loss.VxiDrop? || loss.VxiVanish?)
    ensures var e := Step(Step(d, loss), VxiTurn(incoming, script));
      && e.scpi.external
      && (loss.VxiDrop? && d.vxi.client.Client? ==> e.vxi.client.NoClient? && e.vxi.closes == d.vxi.closes + 1)
  {
  }

  /**
   * A web order drops the client it names and no other: the raw client, or the VXI-11 client and with it external
   * control. Any other client, and control with it, stays as it is.
   */
  lemma WebOrderHitsItsAddress(d: Dongle, ip: nat)
    requires DongleOk(d) && d.phase == AtHttp
    ensures var e := Step(d, HttpTurn(DropRawClient(ip)));
      && e.vxi == d.vxi && e.scpi == d.scpi.(client := e.scpi.client)
      && (d.scpi.client.Client? && d.scpi.client.ip != ip ==> e.scpi.client == d.scpi.client)
      && (d.scpi.client.Client? && d.scpi.client.ip == ip && d.scpi.client.connected ==> e.scpi.client.NoClient?)
    ensures var e := Step(d, HttpTurn(DropVxiClient(ip)));
      && e.scpi.client == d.scpi.client && e.vxi == d.vxi.(client := e.vxi.client)
      && (d.vxi.client.Client? && d.vxi.client.ip != ip ==>
            e.vxi.client == d.vxi.client && e.scpi.external == d.scpi.external)
      && (d.vxi.client.Client? && d.vxi.client.ip == ip && d.vxi.client.connected ==>
            e.vxi.client.NoClient? && !e.scpi.external)
  {
  }

  // ----- Without the discipline -----

  /** A write that reaches the parser is logged with who else was attached at that moment. */
  lemma ServeWriteParses(s: Scpi, packet: seq<byte>, conn: nat, script: seq<ParserEvent>)
    requires InnerFits(packet) && Calls(packet, DEV_WRITE) && Accepts(RightTrim(WriteData(packet)))
    ensures var log := Serve(s, packet, conn, script).scpi.log;
      var line := Tag(RightTrim(WriteData(packet)), VxiSession(conn));
      |log| > |s.log| && log[|s.log|] == Parsed(VxiSession(conn), line, s.client.Client?, s.linked)
  {
    var me := VxiSession(conn);
    ReactFrame(Start(WriteInput(s, me, RightTrim(WriteData(packet))), me), me, script);
  }

  /** A write request with a command and white space behind it, in front of whatever the buffer held. */
  predicate CarriesCommand(packet: seq<byte>, cmd: seq<byte>) {
    InnerFits(packet) && Calls(packet, DEV_WRITE) && RightTrim(WriteData(packet)) == cmd
  }

  lemma RequestCarriesCommand(xid: word, link: word, cmd: seq<byte>, end: seq<byte>, stale: seq<byte>)
    requires Bare(cmd) && White(end) && |cmd| < 192 && |cmd| + |end| <= 192
    requires |WriteRequest(xid, link, cmd + end)| + |stale| == VXI_READ_SIZE - 4
    ensures CarriesCommand(WriteRequest(xid, link, cmd + end) + stale, cmd)
  {
    var data := cmd + end;
    TrimTakesOffWhite(cmd, end);
    WriteRequestFields(xid, link, data, stale);
    WriteFitsIffRoom(xid, link, data, stale);
    FieldsCarry(WriteRequest(xid, link, data) + stale, data);
  }

  lemma FieldsCarry(packet: seq<byte>, data: seq<byte>)
    requires InnerFits(packet) && Calls(packet, DEV_WRITE) && WordAt(packet, 14) == |data|
    requires packet[60..60 + |data|] == data
    ensures CarriesCommand(packet, RightTrim(data))
  {
  }

  /** The line the parser is given for it is the command, or nothing happens if there is none. */
  predicate ParsedAs(s: Scpi, log: seq<Event>, cmd: seq<byte>, conn: nat) {
    if cmd == [] then log == s.log
    else && |log| > |s.log|
         && log[|s.log|] == Parsed(VxiSession(conn), Tag(cmd, VxiSession(conn)), s.client.Client?, s.linked)
  }

  lemma CarriedIsParsed(s: Scpi, packet: seq<byte>, cmd: seq<byte>, conn: nat, script: seq<ParserEvent>)
    requires CarriesCommand(packet, cmd) && |cmd| < 192
    ensures ParsedAs(s, Serve(s, packet, conn, script).scpi.log, cmd, conn)
  {
    if cmd != [] {
      ServeWriteParses(s, packet, conn, script);
    }
  }

  /**
   * The line the parser is given for a write request is its command without the white space behind it, the line
   * feed included; a command of nothing else is not handed over at all.
   */
  lemma CommandIsParsed(s: Scpi, xid: word, link: word, cmd: seq<byte>, end: seq<byte>, stale: seq<byte>, conn: nat,
                        script: seq<ParserEvent>)
    requires Bare(cmd) && White(end) && |cmd| < 192 && |cmd| + |end| <= 192
    requires |WriteRequest(xid, link, cmd + end)| + |stale| == VXI_READ_SIZE - 4
    ensures var packet := WriteRequest(xid, link, cmd + end) + stale;
      InnerFits(packet) && ParsedAs(s, Serve(s, packet, conn, script).scpi.log, cmd, conn)
  {
    RequestCarriesCommand(xid, link, cmd, end, stale);
    CarriedIsParsed(s, WriteRequest(xid, link, cmd + end) + stale, cmd, conn, script);
  }

  /** An acceptable write is about to be served. */
  predicate WritePending(d: Dongle)
    requires DongleOk(d)
  {
    && d.phase == AtVxi && Serving(d.vxi) && Servable(d.vxi)
    && var packet := Incoming(d.vxi).buf[4..];
    Calls(packet, DEV_WRITE) && Accepts(RightTrim(WriteData(packet)))
  }

  lemma PendingWriteParses(d: Dongle, incoming: Client, script: seq<ParserEvent>)
    requires DongleOk(d) && WritePending(d)
    ensures var log := Step(d, VxiTurn(incoming, script)).scpi.log;
      && |log| > |d.scpi.log| && log[|d.scpi.log|].Parsed?
      && log[|d.scpi.log|].origin == VxiSession(d.vxi.client.id)
      && log[|d.scpi.log|].rawAttached == d.scpi.client.Client?
      && log[|d.scpi.log|].linkUp == d.scpi.linked
  {
    StepIsTurn(d);
    TurnServes(d.vxi, d.scpi, incoming, script);
    ServeWriteParses(d.scpi, Incoming(d.vxi).buf[4..], d.vxi.client.id, script);
  }

  /**
   * In any reachable state a pending write is parsed in that turn. It meets a raw client exactly when one is
   * attached, and that is never so while external control was held at the raw server's last turn.
   */
  lemma WriteMeetsRaw(d: Dongle, run: seq<Action>, incoming: Client, script: seq<ParserEvent>)
    requires Initially(d) && WritePending(After(d, run))
    ensures var e := After(d, run);
      var log := Step(e, VxiTurn(incoming, script)).scpi.log;
      && |log| > |e.scpi.log| && log[|e.scpi.log|].Parsed?
      && log[|e.scpi.log|].origin == VxiSession(e.vxi.client.id)
      && (log[|e.scpi.log|].rawAttached <==> e.scpi.client.Client?)
      && (e.scpi.external ==> !log[|e.scpi.log|].rawAttached)
  {
    RunSound(d, run);
    PendingWriteParses(After(d, run), incoming, script);
  }

  /** The run that shows the discipline is needed: a raw client and an unlinked VXI-11 writer. */
  function RawArrives(raw: Client, vxi: Client): seq<Action> {
    [ScpiTurn(raw, []), BridgeTurn, RpcBindTurn([], NoClient), VxiTurn(vxi, []), HttpTurn(NoOrder)]
  }

  function WriterComes(req: seq<byte>): seq<Action>
    requires |req| < 0x8000_0000
  {
    [VxiBytes(Record(req)), ScpiTurn(NoClient, []), BridgeTurn, RpcBindTurn([], NoClient), VxiTurn(NoClient, [])]
  }

  /** A write of this VXI-11 connection is parsed while a raw client is attached. */
  predicate Collision(e: Event, vxi: nat) {
    e.Parsed? && e.origin == VxiSession(vxi) && e.rawAttached
  }

  /** For every acceptable write request that run parses it while the raw client is attached. */
  lemma UnlinkedWriteCollides(d: Dongle, raw: Client, vxi: Client, req: seq<byte>)
    requires Initially(d)
    requires raw.Client? && raw.connected && raw.rx == [] && vxi.Client? && vxi.connected && vxi.rx == []
    requires WellFormed(req) && Calls(req, DEV_WRITE) && Accepts(RightTrim(WriteData(req)))
    ensures exists e | e in After(After(d, RawArrives(raw, vxi)), WriterComes(req)).scpi.log :: Collision(e, vxi.id)
  {
    var d5, d9 := Joined(d, raw, vxi), WriterReady(Joined(d, raw, vxi), req);
    RawIsThere(d, raw, vxi);
    FiveSteps(d, RawArrives(raw, vxi));
    FiveSteps(d5, WriterComes(req));
    WriterIsThere(d5, raw, vxi, req);
    PendingWriteCollides(d9, vxi.id);
  }

  lemma PendingWriteCollides(d: Dongle, vxi: nat)
    requires DongleOk(d) && WritePending(d) && d.scpi.client.Client? && d.vxi.client.id == vxi
    ensures exists e | e in Step(d, VxiTurn(NoClient, [])).scpi.log :: Collision(e, vxi)
  {
    PendingWriteParses(d, NoClient, []);
    var log := Step(d, VxiTurn(NoClient, [])).scpi.log;
    assert log[|d.scpi.log|] in log;
  }

  function Joined(d: Dongle, raw: Client, vxi: Client): (e: Dongle)
    requires DongleOk(d)
    ensures DongleOk(e)
  {
    Step(Step(Step(Step(Step(d, ScpiTurn(raw, [])), BridgeTurn), RpcBindTurn([], NoClient)), VxiTurn(vxi, [])),
         HttpTurn(NoOrder))
  }

  function WriterReady(d: Dongle, req: seq<byte>): (e: Dongle)
    requires DongleOk(d) && |req| < 0x8000_0000
    ensures DongleOk(e)
  {
    Step(Step(Step(Step(d, VxiBytes(Record(req))), ScpiTurn(NoClient, [])), BridgeTurn), RpcBindTurn([], NoClient))
  }

  lemma RawIsThere(d: Dongle, raw: Client, vxi: Client)
    requires Initially(d)
    requires raw.Client? && raw.connected && raw.rx == [] && vxi.Client? && vxi.connected && vxi.rx == []
    ensures var e := Joined(d, raw, vxi);
      e.phase == AtScpi && e.scpi.client == raw && !e.scpi.external && !e.scpi.linked && e.vxi.client == vxi
  {
    StepIsTurn(d);
    var d1 := Step(d, ScpiTurn(raw, []));
    StepIsTurn(d1);
    StepIsTurn(Step(d1, BridgeTurn));
    var d3 := Step(Step(d1, BridgeTurn), RpcBindTurn([], NoClient));
    StepIsTurn(d3);
  }

  lemma WriterIsThere(d: Dongle, raw: Client, vxi: Client, req: seq<byte>)
    requires DongleOk(d) && d.phase == AtScpi && d.scpi.client == raw && d.vxi.client == vxi
    requires !d.scpi.external && !d.scpi.linked
    requires raw.Client? && raw.connected && raw.rx == [] && vxi.Client? && vxi.connected && vxi.rx == []
    requires WellFormed(req) && Calls(req, DEV_WRITE) && Accepts(RightTrim(WriteData(req)))
    ensures var e := WriterReady(d, req);
      WritePending(e) && e.scpi.client == raw && !e.scpi.linked && e.vxi.client.id == vxi.id
  {
    var d1 := Step(d, VxiBytes(Record(req)));
    StepIsTurn(d1);
    var d2 := Step(d1, ScpiTurn(NoClient, []));
    StepIsTurn(d2);
    StepIsTurn(Step(d2, BridgeTurn));
    RequestPending(WriterReady(d, req).vxi, req);
  }

  /** A write request at the head of the stream is what the next turn will serve. */
  lemma RequestPending(v: Vxi, req: seq<byte>)
    requires Ok(v) && v.client.Client? && v.client.connected && WellFormed(req) && Calls(req, DEV_WRITE)
    requires v.client.rx == [] + Record(req)
    ensures Serving(v) && Servable(v)
    ensures var packet := Incoming(v).buf[4..];
      Calls(packet, DEV_WRITE) && WriteData(packet) == WriteData(req)
  {
    assert [] + Record(req) == Record(req) + [];
    GetRecord(v.buf, req, []);
    var packet := Incoming(v).buf[4..];
    var stale := packet[|req|..];
    assert packet == req + stale;
    FitsWith(req, stale);
    WordInPrefix(req, stale, 3);
    WordInPrefix(req, stale, 5);
  }
}
