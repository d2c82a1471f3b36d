/** What a VXI-11 session reads: what the output buffer held at its CREATE_LINK, then what its own writes emitted. */
module LinkTheorems {
  import opened Options
  import opened Bytes
  import opened Sockets
  import opened ScpiModel
  import opened ScpiTheorems
  import opened RpcPackets
  import opened VxiModel
  import opened VxiTheorems
  import opened MainLoop

  /** The bytes the reads of a session delivered, in order. */
  function ReadBy(session: nat, log: seq<Event>): seq<Cell> {
    if log == [] then []
    else
      var e := log[|log| - 1];
      ReadBy(session, log[..|log| - 1]) + if e.ReadByVxi? && e.session == session then e.cells else []
  }

  /** Has a read of the session delivered anything yet? */
  predicate HasRead(session: nat, log: seq<Event>) {
    exists k | 0 <= k < |log| :: log[k].ReadByVxi? && log[k].session == session
  }

  /**
   * The account of a link: what it read, followed by what the buffer holds, is what was left over at its
   * CREATE_LINK followed by what was produced since, all of it by its own writes. The leftover comes out whole
   * with the first read.
   */
  ghost predicate Accounted(leftover: seq<Cell>, session: nat, since: seq<Event>, output: seq<Cell>) {
    && ReadBy(session, since) + output == leftover + Produced(since)
    && AllFrom(Produced(since), VxiSession(session))
    && if HasRead(session, since) then leftover <= ReadBy(session, since) else ReadBy(session, since) == []
  }

  ghost predicate LinkAccount(leftover: seq<Cell>, from: nat, session: nat, s: Scpi) {
    from <= |s.log| && Accounted(leftover, session, s.log[from..], s.output)
  }

  lemma OneMoreEvent(session: nat, log: seq<Event>, e: Event)
    ensures ReadBy(session, log + [e])
         == ReadBy(session, log) + if e.ReadByVxi? && e.session == session then e.cells else []
    ensures Produced(log + [e]) == Produced(log) + if e.Appended? then e.cells else []
    ensures HasRead(session, log + [e]) <==> HasRead(session, log) || (e.ReadByVxi? && e.session == session)
  {
    var longer := log + [e];
    assert longer[..|longer| - 1] == log;
    assert forall k | 0 <= k < |log| :: longer[k] == log[k];
    assert longer[|log|] == e;
  }

  /** May this happen to the output buffer while the session holds the link? */
  ghost predicate Allowed(session: nat, before: seq<Cell>, e: Event, after: seq<Cell>) {
    match e
    case Appended(cells) => AllFrom(cells, VxiSession(session)) && after == before + cells
    case ReadByVxi(reader, cells) => reader == session && cells == before && after == []
    case Parsed(_, _, _, _) => after == before
    case Flushed => after == before
    case _ => false
  }

  lemma EventAccounted(leftover: seq<Cell>, session: nat, since: seq<Event>, before: seq<Cell>, e: Event,
                       after: seq<Cell>)
    requires Accounted(leftover, session, since, before) && Allowed(session, before, e, after)
    ensures Accounted(leftover, session, since + [e], after)
  {
    OneMoreEvent(session, since, e);
    var read, made := ReadBy(session, since), Produced(since);
    assert read + [] == read && made + [] == made;
    if e.Appended? {
      Regroup(read, before, leftover, made, e.cells);
    }
  }

  lemma Regroup(read: seq<Cell>, before: seq<Cell>, leftover: seq<Cell>, made: seq<Cell>, cells: seq<Cell>)
    requires read + before == leftover + made
    ensures read + (before + cells) == leftover + (made + cells)
  {
    assert read + (before + cells) == read + before + cells;
    assert leftover + (made + cells) == leftover + made + cells;
  }

  lemma NoteAccounted(leftover: seq<Cell>, from: nat, session: nat, s: Scpi, e: Event, t: Scpi)
    requires LinkAccount(leftover, from, session, s) && Allowed(session, s.output, e, t.output)
    requires t.log == s.log + [e]
    ensures LinkAccount(leftover, from, session, t)
  {
    assert t.log[from..] == s.log[from..] + [e];
    EventAccounted(leftover, session, s.log[from..], s.output, e, t.output);
  }

  lemma {:induction false} ReactAccounted(leftover: seq<Cell>, from: nat, session: nat, s: Scpi,
                                         script: seq<ParserEvent>)
    requires LinkAccount(leftover, from, session, s) && s.external
    ensures LinkAccount(leftover, from, session, React(s, VxiSession(session), script))
    decreases |script|
  {
    if script != [] {
      var t := Handle(s, VxiSession(session), script[0]);
      match script[0] {
        case Emit(text) =>
          NoteAccounted(leftover, from, session, s, Appended(Tag(text, VxiSession(session))), t);
        case EndOfReply => NoteAccounted(leftover, from, session, s, Flushed, t);
        case PeerLost =>
      }
      ReactAccounted(leftover, from, session, t, script[1..]);
    }
  }

  lemma ServeAccounted(leftover: seq<Cell>, from: nat, s: Scpi, packet: seq<byte>, conn: nat,
                       script: seq<ParserEvent>)
    requires InnerFits(packet) && LinkAccount(leftover, from, conn, s) && s.external
    ensures LinkAccount(leftover, from, conn, Serve(s, packet, conn, script).scpi)
  {
    if Calls(packet, DEV_WRITE) {
      var me, data := VxiSession(conn), RightTrim(WriteData(packet));
      if Accepts(data) {
        var t := WriteInput(s, me, data);
        NoteAccounted(leftover, from, conn, s, Parsed(me, t.input, t.client.Client?, t.linked), Start(t, me));
        ReactAccounted(leftover, from, conn, Start(t, me), script);
      }
    } else if Calls(packet, DEV_READ) {
      if Readable(s, READ_CHUNK) {
        NoteAccounted(leftover, from, conn, s, ReadByVxi(conn, s.output), Read(s, conn, READ_CHUNK).0);
      }
    }
  }

  /** The link of this connection is up. */
  predicate HoldsLink(d: Dongle, session: nat) {
    d.scpi.linked && d.vxi.client.Client? && d.vxi.client.id == session
  }

  lemma TurnAccounted(leftover: seq<Cell>, from: nat, v: Vxi, s: Scpi, incoming: Client, script: seq<ParserEvent>)
    requires Ok(v) && Servable(v) && Serving(v) && s.external && LinkAccount(leftover, from, v.client.id, s)
    ensures LinkAccount(leftover, from, v.client.id, Turn(v, s, incoming, script).1)
  {
    ServeAccounted(leftover, from, s, Incoming(v).buf[4..], v.client.id, script);
    TurnServes(v, s, incoming, script);
  }

  /** Only DESTROY_LINK makes a turn that serves drop its client. */
  lemma TurnKeepsClient(v: Vxi, s: Scpi, incoming: Client, script: seq<ParserEvent>)
    requires Ok(v) && Servable(v) && Serving(v) && Turn(v, s, incoming, script).1.linked
    ensures Turn(v, s, incoming, script).0.client == v.client.(rx := Incoming(v).rx)
  {
    ServeCloses(s, Incoming(v).buf[4..], v.client.id, script);
    TurnServes(v, s, incoming, script);
  }

  lemma ServeCloses(s: Scpi, packet: seq<byte>, conn: nat, script: seq<ParserEvent>)
    requires InnerFits(packet)
    ensures var r := Serve(s, packet, conn, script); r.close ==> !r.scpi.linked
  {
  }

  lemma StepAccounted(leftover: seq<Cell>, from: nat, session: nat, d: Dongle, a: Action)
    requires Sound(d) && HoldsLink(d, session) && LinkAccount(leftover, from, session, d.scpi)
    requires Step(d, a).scpi.linked
    ensures HoldsLink(Step(d, a), session) && LinkAccount(leftover, from, session, Step(d, a).scpi)
  {
    if a.VxiTurn? && Enabled(d, a) && Serving(d.vxi) {
      TurnAccounted(leftover, from, d.vxi, d.scpi, a.incoming, a.script);
      TurnKeepsClient(d.vxi, d.scpi, a.incoming, a.script);
    }
  }

  /** The link stays up over the whole run. */
  ghost predicate LinkStaysUp(d: Dongle, run: seq<Action>)
    requires DongleOk(d)
  {
    forall k | 0 <= k <= |run| :: After(d, run[..k]).scpi.linked
  }

  lemma {:induction false} RunAccounted(leftover: seq<Cell>, from: nat, session: nat, d: Dongle, run: seq<Action>)
    requires Sound(d) && HoldsLink(d, session) && LinkAccount(leftover, from, session, d.scpi) && LinkStaysUp(d, run)
    ensures HoldsLink(After(d, run), session) && LinkAccount(leftover, from, session, After(d, run).scpi)
    decreases |run|
  {
    if run != [] {
      var before := run[..|run| - 1];
      forall k | 0 <= k <= |before| ensures After(d, before[..k]).scpi.linked {
        assert before[..k] == run[..k];
      }
      assert run[..|run|] == run;
      RunAccounted(leftover, from, session, d, before);
      RunSound(d, before);
      StepAccounted(leftover, from, session, After(d, before), run[|run| - 1]);
    }
  }

  /** A CREATE_LINK is about to be served. */
  predicate CreatePending(d: Dongle)
    requires DongleOk(d)
  {
    d.phase == AtVxi && Serving(d.vxi) && Servable(d.vxi) && Calls(Incoming(d.vxi).buf[4..], CREATE_LINK)
  }

  lemma CreateLinks(d: Dongle, incoming: Client, script: seq<ParserEvent>)
    requires DongleOk(d) && CreatePending(d)
    ensures var f := Step(d, VxiTurn(incoming, script));
      HoldsLink(f, d.vxi.client.id) && f.scpi == d.scpi.(external := true, linked := true)
  {
    StepIsTurn(d);
    TurnServes(d.vxi, d.scpi, incoming, script);
  }

  /**
   * For every link created in a reachable state and every run while it is up: its reads deliver what the output
   * buffer held at CREATE_LINK, whole and first, and then exactly what its own writes emitted, in order.
   */
  lemma LinkReadsLeftoverThenOwn(d: Dongle, before: seq<Action>, incoming: Client, script: seq<ParserEvent>,
                                 run: seq<Action>)
    requires Initially(d) && CreatePending(After(d, before))
    requires LinkStaysUp(Step(After(d, before), VxiTurn(incoming, script)), run)
    ensures var e := After(d, before);
      var f := Step(e, VxiTurn(incoming, script));
      LinkAccount(e.scpi.output, |e.scpi.log|, e.vxi.client.id, After(f, run).scpi)
  {
    var e := After(d, before);
    var f := Step(e, VxiTurn(incoming, script));
    RunSound(d, before);
    StepSound(e, VxiTurn(incoming, script));
    CreateLinks(e, incoming, script);
    assert f.scpi.log[|e.scpi.log|..] == [];
    RunAccounted(e.scpi.output, |e.scpi.log|, e.vxi.client.id, f, run);
  }

  // ----- When a session is isolated from earlier ones -----

  /** The connection has given the parser nothing yet. */
  ghost predicate Unheard(log: seq<Event>, origin: Origin) {
    forall k | 0 <= k < |log| && log[k].Parsed? :: log[k].origin != origin
  }

  ghost predicate NoneFrom(cells: seq<Cell>, origin: Origin) {
    forall i | 0 <= i < |cells| :: cells[i].origin != origin
  }

  /** The output buffer holds bytes of connections only that have been parsed. */
  ghost predicate HeardOnly(s: Scpi, origin: Origin) {
    Unheard(s.log, origin) ==> NoneFrom(s.output, origin)
  }

  lemma {:induction false} ReactHeardOnly(s: Scpi, me: Origin, script: seq<ParserEvent>, origin: Origin)
    requires me != origin ==> NoneFrom(s.output, origin)
    ensures me != origin ==> NoneFrom(React(s, me, script).output, origin)
    decreases |script|
  {
    if script != [] {
      ReactHeardOnly(Handle(s, me, script[0]), me, script[1..], origin);
    }
  }

  lemma ParserInputHeardOnly(s: Scpi, me: Origin, script: seq<ParserEvent>, origin: Origin)
    requires HeardOnly(s, origin)
    ensures HeardOnly(ParserInput(s, me, script), origin)
  {
    var t, u := Start(s, me), ParserInput(s, me, script);
    ReactFrame(t, me, script);
    if Unheard(u.log, origin) {
      assert forall k | 0 <= k < |t.log| :: t.log[k] == u.log[k];
      assert forall k | 0 <= k < |s.log| :: s.log[k] == t.log[k];
      assert t.log[|s.log|].origin == me;
      ReactHeardOnly(t, me, script, origin);
    }
  }

  lemma ReceiveHeardOnly(t: Scpi, script: seq<ParserEvent>, origin: Origin)
    requires HeardOnly(t, origin)
    ensures HeardOnly(Receive(t, script), origin)
  {
    if t.client.Client? && t.client.rx != [] {
      match TakeBytes(t.input, t.client.rx, RawSession(t.client.id))
      case Line(input, rest) =>
        ParserInputHeardOnly(LineInput(t, input, rest), RawSession(t.client.id), script, origin);
      case _ =>
    }
  }

  lemma LoopHeardOnly(s: Scpi, incoming: Client, script: seq<ParserEvent>, origin: Origin)
    requires HeardOnly(s, origin)
    ensures HeardOnly(Loop(s, incoming, script), origin)
  {
    var t := Accept(s, incoming);
    assert HeardOnly(t, origin);
    ReceiveHeardOnly(t, script, origin);
  }

  lemma ServeHeardOnly(s: Scpi, packet: seq<byte>, conn: nat, script: seq<ParserEvent>, origin: Origin)
    requires InnerFits(packet) && HeardOnly(s, origin)
    ensures HeardOnly(Serve(s, packet, conn, script).scpi, origin)
  {
    if Calls(packet, DEV_WRITE) {
      var me, data := VxiSession(conn), RightTrim(WriteData(packet));
      if Accepts(data) {
        ParserInputHeardOnly(WriteInput(s, me, data), me, script, origin);
      }
    }
  }

  lemma {:induction false} RunHeardOnly(d: Dongle, run: seq<Action>, origin: Origin)
    requires Initially(d)
    ensures HeardOnly(After(d, run).scpi, origin)
    decreases |run|
  {
    if run != [] {
      RunHeardOnly(d, run[..|run| - 1], origin);
      StepHeardOnly(After(d, run[..|run| - 1]), run[|run| - 1], origin);
    }
  }

  lemma StepHeardOnly(d: Dongle, a: Action, origin: Origin)
    requires DongleOk(d) && HeardOnly(d.scpi, origin)
    ensures HeardOnly(Step(d, a).scpi, origin)
  {
    if Enabled(d, a) {
      match a {
        case ScpiTurn(incoming, script) => LoopHeardOnly(d.scpi, incoming, script, origin);
        case VxiTurn(incoming, script) =>
          if Serving(d.vxi) {
            ServeHeardOnly(d.scpi, Incoming(d.vxi).buf[4..], d.vxi.client.id, script, origin);
            TurnServes(d.vxi, d.scpi, incoming, script);
          }
        case _ =>
      }
    }
  }

  /** Once a read has delivered, the bytes read since are the session's own exactly if nothing was left over. */
  ghost predicate OwnIffEmpty(leftover: seq<Cell>, from: nat, session: nat, s: Scpi) {
    && from <= |s.log|
    && (HasRead(session, s.log[from..]) ==>
          (AllFrom(ReadBy(session, s.log[from..]), VxiSession(session)) <==> leftover == []))
  }

  lemma AccountTells(leftover: seq<Cell>, from: nat, session: nat, s: Scpi)
    requires LinkAccount(leftover, from, session, s) && NoneFrom(leftover, VxiSession(session))
    ensures OwnIffEmpty(leftover, from, session, s)
  {
    var since := s.log[from..];
    var r := ReadBy(session, since);
    if HasRead(session, since) {
      if leftover == [] {
        assert r + s.output == Produced(since);
        assert forall i | 0 <= i < |r| :: r[i] == Produced(since)[i];
      } else {
        assert r[0] == leftover[0];
      }
    }
  }

  /**
   * For every link created by a connection that has not written before, and every run while the link is up:
   * the reads deliver the session's own bytes exactly if the output buffer was empty at CREATE_LINK.
   */
  lemma ReadsAreOwnIffBufferWasEmpty(d: Dongle, before: seq<Action>, incoming: Client, script: seq<ParserEvent>,
                                     run: seq<Action>)
    requires Initially(d) && CreatePending(After(d, before))
    requires var e := After(d, before); Unheard(e.scpi.log, VxiSession(e.vxi.client.id))
    requires LinkStaysUp(Step(After(d, before), VxiTurn(incoming, script)), run)
    ensures var e := After(d, before);
      var f := Step(e, VxiTurn(incoming, script));
      OwnIffEmpty(e.scpi.output, |e.scpi.log|, e.vxi.client.id, After(f, run).scpi)
  {
    var e := After(d, before);
    LinkReadsLeftoverThenOwn(d, before, incoming, script, run);
    RunHeardOnly(d, before, VxiSession(e.vxi.client.id));
    AccountTells(e.scpi.output, |e.scpi.log|, e.vxi.client.id,
                 After(Step(e, VxiTurn(incoming, script)), run).scpi);
  }

  // ----- Input on which the buffer is not empty -----

  /** The first query of a session is answered with whatever the buffer held in front of the reply. */
  lemma FirstQuerySeesLeftover(s: Scpi, create: seq<byte>, query: seq<byte>, text: seq<byte>, read: seq<byte>,
                               conn: nat)
    requires |s.output| + |text| <= 216
    requires WellFormed(create) && Calls(create, CREATE_LINK) && WellFormed(read) && Calls(read, DEV_READ)
    requires WellFormed(query) && Calls(query, DEV_WRITE) && Accepts(RightTrim(WriteData(query)))
    ensures var linked := Answer(s, create, conn, []).scpi;
      var asked := Answer(linked, query, conn, [Emit(text), EndOfReply]).scpi;
      DecodeReadReply(Frame(Answer(asked, read, conn, []).reply))
        == Some(ReadReply(WordAt(read, 0), NO_ERROR, REASON_END, Values(s.output) + text))
  {
    CreateAnswers(s, create, conn);
    var linked := Answer(s, create, conn, []).scpi;
    QueryAnswers(linked, query, conn, text);
    var asked := Answer(linked, query, conn, [Emit(text), EndOfReply]).scpi;
    assert Values(asked.output) == Values(s.output) + text;
    ReadReplyRoundTrip(asked, read, conn, []);
  }

  /**
   * A raw reply whose peer is lost between the emission and the flush stays in the buffer: not marked as ready,
   * with no client attached and nobody in control. The next session is given it with its first reply.
   */
  lemma CutReplyGoesToNextSession(s: Scpi, raw: nat, leftover: seq<byte>, create: seq<byte>, query: seq<byte>,
                                  text: seq<byte>, read: seq<byte>, conn: nat)
    requires s.output == [] && !s.external && |leftover| + |text| <= 216
    requires WellFormed(create) && Calls(create, CREATE_LINK) && WellFormed(read) && Calls(read, DEV_READ)
    requires WellFormed(query) && Calls(query, DEV_WRITE) && Accepts(RightTrim(WriteData(query)))
    ensures var cut := React(s, RawSession(raw), [Emit(leftover), PeerLost, EndOfReply]);
      var linked := Answer(cut, create, conn, []).scpi;
      var asked := Answer(linked, query, conn, [Emit(text), EndOfReply]).scpi;
      && !cut.ready && cut.client.NoClient? && !cut.external
      && DecodeReadReply(Frame(Answer(asked, read, conn, []).reply))
         == Some(ReadReply(WordAt(read, 0), NO_ERROR, REASON_END, leftover + text))
  {
    CutReply(s, raw, leftover);
    FirstQuerySeesLeftover(React(s, RawSession(raw), [Emit(leftover), PeerLost, EndOfReply]), create, query, text,
                           read, conn);
  }

  lemma CutReply(s: Scpi, raw: nat, leftover: seq<byte>)
    requires s.output == [] && !s.external
    ensures var cut := React(s, RawSession(raw), [Emit(leftover), PeerLost, EndOfReply]);
      Values(cut.output) == leftover && !cut.ready && cut.client.NoClient? && !cut.external
  {
    var me := RawSession(raw);
    var script := [Emit(leftover), PeerLost, EndOfReply];
    assert script[1..] == [PeerLost, EndOfReply] && script[1..][1..] == [EndOfReply] && script[1..][1..][1..] == [];
    var a := Append(s, Tag(leftover, me));
    var b := a.(client := NoClient);
    assert React(s, me, script) == React(a, me, script[1..]) == React(b, me, script[1..][1..])
        == React(Flush(b), me, []);
    assert [] + Tag(leftover, me) == Tag(leftover, me);
  }
}
