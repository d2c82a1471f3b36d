/** What the VXI-11 server does with one request and with one turn of the main loop, as functions. */
module VxiModel {
  import opened Bytes
  import opened Sockets
  import opened ScpiModel
  import opened RpcPackets
  import opened CyclicPort

  const VXI_11_CORE: word := 0x607AF
  const CREATE_LINK: word := 10
  const DEV_WRITE: word := 11
  const DEV_READ: word := 12
  const DESTROY_LINK: word := 23

  const NO_ERROR: word := 0
  const REASON_END: word := 4
  const MAX_RECEIVE_SIZE: word := 252   // VXI_READ_SIZE - 4
  const READ_CHUNK: nat := 256          // the local buffer of the read handler

  // ----- Fields of a request packet (byte 0 is the first byte after the record mark) -----

  function Xid(packet: seq<byte>): word
    requires |packet| >= 24
  {
    WordAt(packet, 0)
  }

  /** Program and procedure select what is done. */
  predicate Calls(packet: seq<byte>, procedure: word)
    requires |packet| >= 24
  {
    WordAt(packet, 3) == VXI_11_CORE && WordAt(packet, 5) == procedure
  }

  predicate IsSpace(b: byte) {
    b == 32 || 9 <= b <= 13
  }

  function RightTrim(data: seq<byte>): (t: seq<byte>)
    ensures t <= data && (t != [] ==> !IsSpace(t[|t| - 1]))
    ensures forall i | |t| <= i < |data| :: IsSpace(data[i])
  {
    if data != [] && IsSpace(data[|data| - 1]) then RightTrim(data[..|data| - 1]) else data
  }

  /** The data of a write request. */
  function WriteData(packet: seq<byte>): seq<byte>
    requires |packet| >= 60 && 60 + WordAt(packet, 14) <= |packet|
  {
    packet[60..60 + WordAt(packet, 14)]
  }

  /** The inner lengths stay inside the packet, with room for the terminator that is written behind the string. */
  predicate InnerFits(packet: seq<byte>) {
    && |packet| >= 24
    && (Calls(packet, CREATE_LINK) ==> |packet| >= 56 && 56 + WordAt(packet, 13) < |packet|)
    && (Calls(packet, DEV_WRITE) ==>
          && |packet| >= 60 && 60 + WordAt(packet, 14) <= |packet|
          && 60 + |RightTrim(WriteData(packet))| < |packet|)
  }

  /** The packet after its string has been terminated in place. */
  function Terminated(packet: seq<byte>): (p: seq<byte>)
    requires InnerFits(packet)
    ensures |p| == |packet|
  {
    if Calls(packet, CREATE_LINK) then packet[56 + WordAt(packet, 13) := 0]
    else if Calls(packet, DEV_WRITE) then packet[60 + |RightTrim(WriteData(packet))| := 0]
    else packet
  }

  // ----- One request -----

  datatype Served = Served(scpi: Scpi, reply: seq<byte>, close: bool)

  /** handle_packet and the four procedures: the reply is the packet without its record mark. */
  function Serve(s: Scpi, packet: seq<byte>, conn: nat, script: seq<ParserEvent>): (r: Served)
    requires InnerFits(packet)
    ensures 24 <= |r.reply| <= 36 + READ_CHUNK
  {
    var xid := Xid(packet);
    if WordAt(packet, 3) != VXI_11_CORE then
      Served(s, Reply(xid, PROG_UNAVAIL, []), false)
    else if WordAt(packet, 5) == CREATE_LINK then
      Served(Claim(s).(linked := true), Reply(xid, SUCCESS, [NO_ERROR, 0, 0, MAX_RECEIVE_SIZE]), false)
    else if WordAt(packet, 5) == DEV_READ then
      var (t, data) := Read(s, conn, READ_CHUNK);
      Served(t, Reply(xid, SUCCESS, [NO_ERROR, REASON_END, |data|]) + Values(data), false)
    else if WordAt(packet, 5) == DEV_WRITE then
      var t := Write(s, VxiSession(conn), RightTrim(WriteData(packet)), script);
      Served(t, Reply(xid, SUCCESS, [NO_ERROR, WordAt(packet, 14)]), false)
    else if WordAt(packet, 5) == DESTROY_LINK then
      Served(Release(s).(linked := false), Reply(xid, SUCCESS, [NO_ERROR]), true)
    else
      Served(s, Reply(xid, PROC_UNAVAIL, []), false)
  }

  // ----- One turn -----

  datatype Vxi = Vxi(
    client: Client,
    port: Cycle,           // vxi_port
    listening: word,       // the port tcp_server listens on
    buf: seq<byte>,        // vxi_read_buffer
    sent: seq<seq<byte>>,  // bookkeeping: all reply frames
    closes: nat)           // bookkeeping: connections closed by the loop

  predicate Ok(v: Vxi) {
    v.port.Ok() && |v.buf| == VXI_READ_SIZE
  }

  /** begin(true): drop the client and move the server on, unless there is only one port. */
  function BeginNext(v: Vxi): Vxi
    requires v.port.Ok()
  {
    var w := v.(client := NoClient, closes := v.closes + 1);
    if v.port.Size() == 1 then w else w.(port := v.port.Next(), listening := v.port.Next().value)
  }

  /** The record a turn would read. */
  function Incoming(v: Vxi): (g: Received)
    requires Ok(v) && v.client.Client?
    ensures |g.buf| == |v.buf|
  {
    GetPacket(v.buf, v.client.rx)
  }

  /** Does this turn hand a request to handle_packet? */
  predicate Serving(v: Vxi)
    requires Ok(v)
  {
    v.client.Client? && v.client.connected && Incoming(v).len > 0
  }

  predicate Servable(v: Vxi)
    requires Ok(v)
  {
    Serving(v) ==> InnerFits(Incoming(v).buf[4..])
  }

  function ServeNext(v: Vxi, s: Scpi, script: seq<ParserEvent>): (Vxi, Scpi)
    requires Ok(v) && Serving(v) && Servable(v)
  {
    var g := Incoming(v);
    var r := Serve(s, g.buf[4..], v.client.id, script);
    var w := v.(client := v.client.(rx := g.rx), buf := g.buf[..4] + Terminated(g.buf[4..]),
                sent := v.sent + [Frame(r.reply)]);
    (if r.close then BeginNext(w) else w, r.scpi)
  }

  /** One call of VXI_Server::loop. */
  function Turn(v: Vxi, s: Scpi, incoming: Client, script: seq<ParserEvent>): (Vxi, Scpi)
    requires Ok(v) && Servable(v)
  {
    if v.client.NoClient? then
      (v.(client := incoming), s)
    else if !v.client.connected then
      (BeginNext(v), s.(linked := false))
    else if Serving(v) then
      ServeNext(v, s, script)
    else
      (v.(client := v.client.(rx := Incoming(v).rx), buf := Incoming(v).buf), s)
  }

  /** A disconnect order from the web page. */
  function WebDisconnect(v: Vxi, s: Scpi, ip: nat): (Vxi, Scpi) {
    if IsPeer(v.client, ip) then (v.(client := NoClient), Release(s).(linked := false)) else (v, s)
  }
}
