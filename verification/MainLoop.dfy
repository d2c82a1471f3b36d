/**
 * The main loop as a step machine. The components take their turns in the fixed order of the source; bytes
 * arrive, peers drop and connections come in between any two turns. An action that is not enabled changes
 * nothing, so a run is any sequence of actions at all.
 */
module MainLoop {
  import opened Bytes
  import opened Sockets
  import opened CyclicPort
  import opened ScpiModel
  import opened ScpiTheorems
  import opened VxiModel
  import opened BindModel

  /** Whose turn it is. */
  datatype Phase = AtScpi | AtBridge | AtBind | AtVxi | AtHttp

  datatype Dongle = Dongle(phase: Phase, scpi: Scpi, vxi: Vxi, bind: Bind)

  /** What the web page may ask for. */
  datatype WebOrder = NoOrder | DropRawClient(ip: nat) | DropVxiClient(ip: nat)

  datatype Action =
    // the environment, at any time
    | RawBytes(data: seq<byte>) | RawDrop | RawVanish
    | VxiBytes(data: seq<byte>) | VxiDrop | VxiVanish
    // the main loop, in its order
    | ScpiTurn(incoming: Client, script: seq<ParserEvent>)
    | BridgeTurn
    | RpcBindTurn(udp: seq<byte>, tcp: Client)
    | VxiTurn(incoming: Client, script: seq<ParserEvent>)
    | HttpTurn(order: WebOrder)

  predicate DongleOk(d: Dongle) {
    Ok(d.vxi) && BindOk(d.bind)
  }

  predicate Enabled(d: Dongle, a: Action)
    requires DongleOk(d)
  {
    match a
    case ScpiTurn(_, _) => d.phase == AtScpi
    case BridgeTurn => d.phase == AtBridge
    case RpcBindTurn(_, _) => d.phase == AtBind
    case VxiTurn(_, _) => d.phase == AtVxi && Servable(d.vxi)
    case HttpTurn(_) => d.phase == AtHttp
    case _ => true
  }

  function Act(d: Dongle, a: Action): Dongle
    requires DongleOk(d) && Enabled(d, a)
  {
    match a
    case RawBytes(data) => d.(scpi := d.scpi.(client := Deliver(d.scpi.client, data)))
    case RawDrop => d.(scpi := d.scpi.(client := LosePeer(d.scpi.client)))
    case RawVanish => d.(scpi := d.scpi.(client := NoClient))
    case VxiBytes(data) => d.(vxi := d.vxi.(client := Deliver(d.vxi.client, data)))
    case VxiDrop => d.(vxi := d.vxi.(client := LosePeer(d.vxi.client)))
    case VxiVanish => d.(vxi := d.vxi.(client := NoClient), scpi := d.scpi.(linked := false))
    case ScpiTurn(incoming, script) => d.(phase := AtBridge, scpi := Loop(d.scpi, incoming, script))
    case BridgeTurn => d.(phase := AtBind)
    case RpcBindTurn(udp, tcp) => d.(phase := AtVxi, bind := BindTurn(d.bind, d.vxi, udp, tcp))
    case VxiTurn(incoming, script) =>
      var (v, s) := Turn(d.vxi, d.scpi, incoming, script);
      d.(phase := AtHttp, vxi := v, scpi := s)
    case HttpTurn(NoOrder) => d.(phase := AtScpi)
    case HttpTurn(DropRawClient(ip)) => d.(phase := AtScpi, scpi := Disconnect(d.scpi, ip))
    case HttpTurn(DropVxiClient(ip)) =>
      var (v, s) := WebDisconnect(d.vxi, d.scpi, ip);
      d.(phase := AtScpi, vxi := v, scpi := s)
  }

  lemma TurnKeepsOk(v: Vxi, s: Scpi, incoming: Client, script: seq<ParserEvent>)
    requires Ok(v) && Servable(v)
    ensures Ok(Turn(v, s, incoming, script).0)
  {
    NextPrevInverse(v.port);
  }

  function Step(d: Dongle, a: Action): (e: Dongle)
    requires DongleOk(d)
    ensures DongleOk(e)
  {
    if !Enabled(d, a) then d
    else
      assert a.VxiTurn? ==> Ok(Turn(d.vxi, d.scpi, a.incoming, a.script).0) by {
        if a.VxiTurn? {
          TurnKeepsOk(d.vxi, d.scpi, a.incoming, a.script);
        }
      }
      Act(d, a)
  }

  /** The turn of the VXI server with a request to serve. */
  lemma TurnServes(v: Vxi, s: Scpi, incoming: Client, script: seq<ParserEvent>)
    requires Ok(v) && Servable(v) && Serving(v)
    ensures Turn(v, s, incoming, script).1 == Serve(s, Incoming(v).buf[4..], v.client.id, script).scpi
  {
  }

  /** The step of each component is its turn and nothing else. */
  lemma StepIsTurn(d: Dongle)
    requires DongleOk(d)
    ensures forall incoming, script | d.phase == AtScpi ::
      Step(d, ScpiTurn(incoming, script)) == d.(phase := AtBridge, scpi := Loop(d.scpi, incoming, script))
    ensures d.phase == AtBridge ==> Step(d, BridgeTurn) == d.(phase := AtBind)
    ensures forall udp, tcp | d.phase == AtBind ::
      Step(d, RpcBindTurn(udp, tcp)) == d.(phase := AtVxi, bind := BindTurn(d.bind, d.vxi, udp, tcp))
    ensures forall incoming, script | d.phase == AtVxi && Servable(d.vxi) ::
      var (v, s) := Turn(d.vxi, d.scpi, incoming, script);
      Step(d, VxiTurn(incoming, script)) == d.(phase := AtHttp, vxi := v, scpi := s)
  {
  }

  function After(d: Dongle, run: seq<Action>): (e: Dongle)
    requires DongleOk(d)
    ensures DongleOk(e)
  {
    if run == [] then d else Step(After(d, run[..|run| - 1]), run[|run| - 1])
  }

  lemma AfterOneMore(d: Dongle, run: seq<Action>, a: Action)
    requires DongleOk(d)
    ensures After(d, run + [a]) == Step(After(d, run), a)
  {
    assert (run + [a])[..|run|] == run;
  }

  lemma FiveSteps(d: Dongle, r: seq<Action>)
    requires DongleOk(d) && |r| == 5
    ensures After(d, r) == Step(Step(Step(Step(Step(d, r[0]), r[1]), r[2]), r[3]), r[4])
  {
    assert [] + [r[0]] == r[..1] && r[..1] + [r[1]] == r[..2] && r[..2] + [r[2]] == r[..3];
    assert r[..3] + [r[3]] == r[..4] && r[..4] + [r[4]] == r;
    AfterOneMore(d, [], r[0]);
    AfterOneMore(d, r[..1], r[1]);
    AfterOneMore(d, r[..2], r[2]);
    AfterOneMore(d, r[..3], r[3]);
    AfterOneMore(d, r[..4], r[4]);
  }

  /** Power-up: nobody connected, buffers with any content, the VXI server listening on its first port. */
  predicate Initially(d: Dongle) {
    && DongleOk(d)
    && d.phase == AtScpi && d.scpi == Initial
    && d.vxi.client.NoClient? && d.vxi.listening == d.vxi.port.value
    && d.vxi.sent == [] && d.vxi.closes == 0 && d.bind.replies == []
  }

  // ----- What every step keeps -----

  /** After the raw server's turn, and until a link can be claimed again, external control means no raw client. */
  predicate RawYielded(d: Dongle) {
    d.phase in {AtBridge, AtBind, AtVxi} && d.scpi.external ==> d.scpi.client.NoClient?
  }

  predicate LinkHeld(d: Dongle) {
    d.scpi.linked ==> d.scpi.external && d.vxi.client.Client?
  }

  predicate Sound(d: Dongle) {
    && DongleOk(d) && RawYielded(d) && LinkHeld(d)
    && Conserved(d.scpi)
    && d.vxi.listening == d.vxi.port.value
  }

  /** What serving a request does to the shared parser state. */
  lemma ServeFrame(s: Scpi, packet: seq<byte>, conn: nat, script: seq<ParserEvent>)
    requires InnerFits(packet) && Conserved(s) && (s.linked ==> s.external)
    ensures var r := Serve(s, packet, conn, script);
      && Conserved(r.scpi)
      && (r.scpi.linked ==> r.scpi.external)
      && (r.close ==> !r.scpi.linked)
  {
    if WordAt(packet, 3) == VXI_11_CORE && WordAt(packet, 5) == DEV_READ {
      ReadConserves(s, conn, READ_CHUNK);
    } else if Calls(packet, DEV_WRITE) {
      var data := RightTrim(WriteData(packet));
      WriteConserves(s, VxiSession(conn), data, script);
      WriteFrame(s, VxiSession(conn), data, script);
    }
  }

  lemma TurnSound(v: Vxi, s: Scpi, incoming: Client, script: seq<ParserEvent>)
    requires Ok(v) && Servable(v) && v.listening == v.port.value && Conserved(s)
    requires s.linked ==> s.external && v.client.Client?
    ensures var (w, t) := Turn(v, s, incoming, script);
      && Ok(w) && w.listening == w.port.value && Conserved(t)
      && (t.linked ==> t.external && w.client.Client?)
  {
    TurnKeepsOk(v, s, incoming, script);
    if Serving(v) {
      ServeFrame(s, Incoming(v).buf[4..], v.client.id, script);
    }
  }

  lemma StepSound(d: Dongle, a: Action)
    requires Sound(d)
    ensures Sound(Step(d, a))
  {
    if Enabled(d, a) {
      match a {
        case ScpiTurn(incoming, script) =>
          LoopConserves(d.scpi, incoming, script);
          LoopFrame(d.scpi, incoming, script);
        case VxiTurn(incoming, script) =>
          TurnSound(d.vxi, d.scpi, incoming, script);
        case _ =>
      }
    }
  }

  lemma {:induction false} RunSound(d: Dongle, run: seq<Action>)
    requires Initially(d) || Sound(d)
    ensures Sound(After(d, run))
    decreases |run|
  {
    if run != [] {
      RunSound(d, run[..|run| - 1]);
      StepSound(After(d, run[..|run| - 1]), run[|run| - 1]);
    }
  }

  // ----- Output conservation -----

  /**
   * In every reachable state, whatever happened: all bytes the parser ever produced are, in order, those
   * that were drained followed by those still in the buffer, and no VXI read took a reply that was not finished.
   */
  lemma OutputIsConserved(d: Dongle, run: seq<Action>)
    requires Initially(d)
    ensures var s := After(d, run).scpi;
      Produced(s.log) == Drained(s.log) + s.output && ReadsAreFinished(s.log)
  {
    RunSound(d, run);
  }

  // ----- Mutual exclusion and isolation -----

  /** The discipline asked of VXI-11 clients: a connection creates its link before it writes. */
  predicate Orderly(d: Dongle, a: Action)
    requires DongleOk(d)
  {
    a.VxiTurn? && Enabled(d, a) && Serving(d.vxi) && Calls(Incoming(d.vxi).buf[4..], DEV_WRITE) ==> d.scpi.linked
  }

  ghost predicate OrderlyRun(d: Dongle, run: seq<Action>)
    requires DongleOk(d)
  {
    forall k | 0 <= k < |run| :: Orderly(After(d, run[..k]), run[k])
  }

  lemma ServeIsolated(s: Scpi, packet: seq<byte>, conn: nat, script: seq<ParserEvent>)
    requires InnerFits(packet) && Isolated(s)
    requires Calls(packet, DEV_WRITE) ==> s.linked && s.client.NoClient?
    ensures Isolated(Serve(s, packet, conn, script).scpi)
  {
    if Calls(packet, DEV_WRITE) {
      WriteIsolated(s, conn, RightTrim(WriteData(packet)), script);
    }
  }

  lemma StepIsolated(d: Dongle, a: Action)
    requires Sound(d) && Isolated(d.scpi) && Orderly(d, a)
    ensures Isolated(Step(d, a).scpi)
  {
    if Enabled(d, a) {
      match a {
        case ScpiTurn(incoming, script) =>
          LoopIsolated(d.scpi, incoming, script);
        case VxiTurn(incoming, script) =>
          if Serving(d.vxi) {
            ServeIsolated(d.scpi, Incoming(d.vxi).buf[4..], d.vxi.client.id, script);
          }
        case _ =>
      }
    }
  }

  /**
   * A raw session sends the parser its own bytes only, and every byte it is sent was produced by parsing
   * them, over all attachments, takeovers and re-attachments; while it is attached both buffers are its own.
   */
  lemma {:induction false} RawSessionsIsolated(d: Dongle, run: seq<Action>)
    requires Initially(d) && OrderlyRun(d, run)
    ensures Isolated(After(d, run).scpi)
    decreases |run|
  {
    if run != [] {
      var before := run[..|run| - 1];
      assert OrderlyRun(d, before) by {
        forall k | 0 <= k < |before| ensures Orderly(After(d, before[..k]), before[k]) {
          assert before[..k] == run[..k];
        }
      }
      RawSessionsIsolated(d, before);
      RunSound(d, before);
      StepIsolated(After(d, before), run[|run| - 1]);
    }
  }

  /**
   * For every interleaving of turns, packets, connects, drops and web orders: when a VXI write is parsed its
   * connection holds the link and no raw client is attached, and no raw line is parsed while a link is up.
   */
  lemma MutualExclusion(d: Dongle, run: seq<Action>)
    requires Initially(d) && OrderlyRun(d, run)
    ensures AllExclusive(After(d, run).scpi.log)
  {
    RawSessionsIsolated(d, run);
  }
}
