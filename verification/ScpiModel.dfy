/**
 * What each operation of the SCPI front end does, as functions on its state. The raw socket server, the
 * VXI-11 server and the parser library share one input buffer, one output buffer and one control flag.
 * Every byte carries the connection it came from and every operation is written to a log; both are
 * bookkeeping for the theorems, no branch looks at them.
 */
module ScpiModel {
  import opened Bytes
  import opened Sockets

  const WRITE_BUFFER_LENGTH: nat := 256
  const INPUT_BUFFER_LENGTH: nat := 256
  const NEWLINE: byte := 10

  datatype Origin = RawSession(id: nat) | VxiSession(id: nat)

  datatype Cell = Cell(value: byte, origin: Origin)

  /** What the parser library does while it works on one input; the raw peer may vanish meanwhile. */
  datatype ParserEvent = Emit(text: seq<byte>) | EndOfReply | PeerLost

  datatype Event =
    | Parsed(origin: Origin, line: seq<Cell>, rawAttached: bool, linkUp: bool)
    | Appended(cells: seq<Cell>)
    | Flushed
    | SentRaw(session: nat, cells: seq<Cell>)
    | ReadByVxi(session: nat, cells: seq<Cell>)
    | Discarded(cells: seq<Cell>)

  datatype Scpi = Scpi(
    output: seq<Cell>,   // write_buffer up to write_buffer_length
    ready: bool,         // external_output_ready
    external: bool,      // external_control
    input: seq<Cell>,    // scpi_context.buffer up to its position
    client: Client,      // the raw socket client
    linked: bool,        // bookkeeping: the present VXI connection holds a link
    log: seq<Event>)

  function Tag(data: seq<byte>, origin: Origin): (cells: seq<Cell>)
    ensures |cells| == |data|
  {
    seq(|data|, i requires 0 <= i < |data| => Cell(data[i], origin))
  }

  function Values(cells: seq<Cell>): (data: seq<byte>)
    ensures |data| == |cells|
  {
    seq(|cells|, i requires 0 <= i < |cells| => cells[i].value)
  }

  function Note(s: Scpi, e: Event): Scpi {
    s.(log := s.log + [e])
  }

  // ----- The parser's callbacks -----

  function Append(s: Scpi, cells: seq<Cell>): Scpi {
    Note(s.(ready := false, output := s.output + cells), Appended(cells))
  }

  function Flush(s: Scpi): Scpi {
    if s.external then
      Note(s.(ready := true), Flushed)
    else if s.client.Client? then
      Note(Note(s.(output := []), Flushed), SentRaw(s.client.id, s.output))
    else
      Note(s, Flushed)
  }

  function Handle(s: Scpi, origin: Origin, e: ParserEvent): Scpi {
    match e
    case Emit(text) => Append(s, Tag(text, origin))
    case EndOfReply => Flush(s)
    case PeerLost => s.(client := NoClient)
  }

  function React(s: Scpi, origin: Origin, script: seq<ParserEvent>): Scpi
    decreases |script|
  {
    if script == [] then s else React(Handle(s, origin, script[0]), origin, script[1..])
  }

  /** The parser takes the whole input buffer and leaves it empty. */
  function Start(s: Scpi, origin: Origin): Scpi {
    Note(s.(input := []), Parsed(origin, s.input, s.client.Client?, s.linked))
  }

  function ParserInput(s: Scpi, origin: Origin, script: seq<ParserEvent>): Scpi {
    React(Start(s, origin), origin, script)
  }

  /** Does everything the parser emits fit the output buffer when it is emitted? */
  predicate Fits(s: Scpi, origin: Origin, script: seq<ParserEvent>)
    decreases |script|
  {
    script != [] ==>
      && (script[0].Emit? ==> |s.output| + |script[0].text| <= WRITE_BUFFER_LENGTH)
      && Fits(Handle(s, origin, script[0]), origin, script[1..])
  }

  // ----- The handler interface the VXI server uses -----

  function Claim(s: Scpi): Scpi {
    s.(external := true)
  }

  function Release(s: Scpi): Scpi {
    s.(external := false)
  }

  /** Is a command of this length handed to the parser at all? */
  predicate Accepts(data: seq<byte>) {
    0 < |data| <= INPUT_BUFFER_LENGTH
  }

  function WriteInput(s: Scpi, origin: Origin, data: seq<byte>): Scpi {
    s.(input := Tag(data, origin), external := true)
  }

  function Write(s: Scpi, origin: Origin, data: seq<byte>, script: seq<ParserEvent>): Scpi {
    if Accepts(data) then ParserInput(WriteInput(s, origin, data), origin, script) else s
  }

  predicate Readable(s: Scpi, maxLen: nat) {
    s.external && |s.output| <= maxLen && s.ready
  }

  function Read(s: Scpi, reader: nat, maxLen: nat): (Scpi, seq<Cell>) {
    if Readable(s, maxLen) then
      (Note(s.(output := []), ReadByVxi(reader, s.output)), s.output)
    else
      (s, [])
  }

  // ----- The raw socket server -----

  function Reset(s: Scpi): Scpi {
    Note(s.(output := [], input := []), Discarded(s.output))
  }

  /** How far one turn of the byte loop gets with the bytes at hand. */
  datatype Intake = Partial(input: seq<Cell>) | Line(input: seq<Cell>, rest: seq<byte>) | Overflow(rest: seq<byte>)

  function TakeBytes(input: seq<Cell>, rx: seq<byte>, origin: Origin): Intake
    decreases |rx|
  {
    if rx == [] then
      Partial(input)
    else if |input| >= INPUT_BUFFER_LENGTH then
      Overflow(rx[1..])
    else if rx[0] == NEWLINE then
      Line(input + [Cell(rx[0], origin)], rx[1..])
    else
      TakeBytes(input + [Cell(rx[0], origin)], rx[1..], origin)
  }

  function Accept(s: Scpi, incoming: Client): Scpi {
    if incoming.Client? && s.client.NoClient? then Reset(s.(client := incoming)) else s
  }

  /** The state in which the parser is started when the bytes at hand complete a line. */
  function LineInput(s: Scpi, input: seq<Cell>, rest: seq<byte>): Scpi
    requires s.client.Client?
  {
    s.(input := input, client := s.client.(rx := rest))
  }

  function Receive(s: Scpi, script: seq<ParserEvent>): Scpi {
    if s.client.NoClient? || s.client.rx == [] then
      s
    else
      match TakeBytes(s.input, s.client.rx, RawSession(s.client.id))
      case Partial(input) => LineInput(s, input, [])
      case Line(input, rest) => ParserInput(LineInput(s, input, rest), RawSession(s.client.id), script)
      case Overflow(_) => s.(input := [], client := NoClient)
  }

  function DropDead(s: Scpi): Scpi {
    if s.client.Client? && !s.client.connected then s.(client := NoClient) else s
  }

  /** One call of RidenScpi::loop. */
  function Loop(s: Scpi, incoming: Client, script: seq<ParserEvent>): Scpi {
    if s.external then
      s.(client := NoClient)
    else
      DropDead(Receive(Accept(s, incoming), script))
  }

  function Disconnect(s: Scpi, ip: nat): Scpi {
    if IsPeer(s.client, ip) then s.(client := NoClient) else s
  }

  const Initial: Scpi := Scpi([], false, false, [], NoClient, false, [])
}
