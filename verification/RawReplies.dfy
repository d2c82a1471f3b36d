/** What a raw client gets back, and how it makes way for the next one. */
module RawReplies {
  import opened Bytes
  import opened Sockets
  import opened ScpiModel
  import opened ScpiTheorems
  import opened LineAssembly
  import opened MainLoop
  import opened LinkTheorems
  import opened SessionTheorems

  /** The bytes sent to a raw session, in order. */
  function SentTo(session: nat, log: seq<Event>): seq<Cell> {
    if log == [] then []
    else
      var e := log[|log| - 1];
      SentTo(session, log[..|log| - 1]) + if e.SentRaw? && e.session == session then e.cells else []
  }

  /** Everything the parser emits in one go. */
  function Emitted(script: seq<ParserEvent>): seq<byte> {
    if script == [] then []
    else (if script[0].Emit? then script[0].text else []) + Emitted(script[1..])
  }

  /** The parser says nothing, or it finishes its reply. */
  predicate Finishes(script: seq<ParserEvent>) {
    script == [] || script[|script| - 1].EndOfReply?
  }

  /** From entry `from` on: what was sent to the session, then what is buffered, is `base` and what was produced. */
  predicate SendAccount(base: seq<Cell>, from: nat, session: nat, s: Scpi) {
    from <= |s.log| && SentTo(session, s.log[from..]) + s.output == base + Produced(s.log[from..])
  }

  lemma OneMoreSent(session: nat, log: seq<Event>, e: Event)
    ensures SentTo(session, log + [e])
         == SentTo(session, log) + if e.SentRaw? && e.session == session then e.cells else []
    ensures Produced(log + [e]) == Produced(log) + if e.Appended? then e.cells else []
  {
    assert (log + [e])[..|log|] == log;
  }

  /** What was sent before, the buffer before, and what an entry makes of them. */
  lemma BalanceKept(sent: seq<Cell>, before: seq<Cell>, base: seq<Cell>, made: seq<Cell>, e: Event, after: seq<Cell>)
    requires sent + before == base + made
    requires match e
      case Appended(cells) => after == before + cells
      case SentRaw(_, cells) => cells == before && after == []
      case _ => after == before
    ensures sent + (if e.SentRaw? then e.cells else []) + after == base + (made + if e.Appended? then e.cells else [])
  {
    if e.Appended? {
      Regroup(sent, before, base, made, e.cells);
      assert sent + [] == sent;
    } else {
      assert made + [] == made;
      assert e.SentRaw? ==> sent + before + [] == sent + before;
      assert !e.SentRaw? ==> sent + [] == sent;
    }
  }

  /** An entry and what it does to the output buffer. */
  lemma NoteSends(base: seq<Cell>, from: nat, session: nat, s: Scpi, e: Event, t: Scpi)
    requires SendAccount(base, from, session, s) && t.log == s.log + [e]
    requires match e
      case Appended(cells) => t.output == s.output + cells
      case SentRaw(to, cells) => to == session && cells == s.output && t.output == []
      case _ => t.output == s.output
    ensures SendAccount(base, from, session, t)
  {
    var log := s.log[from..];
    assert t.log[from..] == log + [e];
    OneMoreSent(session, log, e);
    BalanceKept(SentTo(session, log), s.output, base, Produced(log), e, t.output);
  }

  /** The raw client is attached and in charge. */
  predicate Serves(session: nat, s: Scpi) {
    !s.external && s.client.Client? && s.client.id == session
  }

  lemma HandleSends(base: seq<Cell>, from: nat, session: nat, s: Scpi, origin: Origin, e: ParserEvent)
    requires SendAccount(base, from, session, s) && Serves(session, s) && !e.PeerLost?
    ensures SendAccount(base, from, session, Handle(s, origin, e)) && Serves(session, Handle(s, origin, e))
    ensures e.EndOfReply? ==> Handle(s, origin, e).output == []
  {
    if e.Emit? {
      NoteSends(base, from, session, s, Appended(Tag(e.text, origin)), Handle(s, origin, e));
    } else {
      var u := Note(s, Flushed);
      NoteSends(base, from, session, s, Flushed, u);
      NoteSends(base, from, session, u, SentRaw(session, s.output), Handle(s, origin, e));
    }
  }

  /** A flushed reply leaves nothing in the buffer: all of it has gone to the client. */
  lemma {:induction false} ReactSends(base: seq<Cell>, from: nat, session: nat, s: Scpi, origin: Origin,
                                     script: seq<ParserEvent>)
    requires SendAccount(base, from, session, s) && Serves(session, s) && KeepsPeer(script)
    ensures var t := React(s, origin, script);
      && SendAccount(base, from, session, t) && Serves(session, t)
      && (script != [] && Finishes(script) ==> t.output == [])
    decreases |script|
  {
    if script != [] {
      HandleSends(base, from, session, s, origin, script[0]);
      ReactSends(base, from, session, Handle(s, origin, script[0]), origin, script[1..]);
    }
  }

  /** What a script makes the log grow by. */
  lemma {:induction false} ReactProduces(from: nat, s: Scpi, origin: Origin, script: seq<ParserEvent>)
    requires from <= |s.log|
    ensures var t := React(s, origin, script);
      from <= |t.log| && Produced(t.log[from..]) == Produced(s.log[from..]) + Tag(Emitted(script), origin)
    decreases |script|
  {
    if script == [] {
      assert Produced(s.log[from..]) + [] == Produced(s.log[from..]);
    } else {
      HandleProduces(from, s, origin, script[0]);
      ReactProduces(from, Handle(s, origin, script[0]), origin, script[1..]);
      TagTwice(Produced(s.log[from..]), if script[0].Emit? then script[0].text else [], Emitted(script[1..]), origin);
    }
  }

  lemma TagTwice(made: seq<Cell>, a: seq<byte>, b: seq<byte>, origin: Origin)
    ensures made + Tag(a, origin) + Tag(b, origin) == made + Tag(a + b, origin)
  {
    assert Tag(a + b, origin) == Tag(a, origin) + Tag(b, origin);
    assert made + Tag(a, origin) + Tag(b, origin) == made + (Tag(a, origin) + Tag(b, origin));
  }

  lemma NoteProduces(from: nat, s: Scpi, e: Event)
    requires from <= |s.log|
    ensures Produced(Note(s, e).log[from..]) == Produced(s.log[from..]) + if e.Appended? then e.cells else []
  {
    OneMoreSent(0, s.log[from..], e);
    assert Note(s, e).log[from..] == s.log[from..] + [e];
  }

  lemma HandleProduces(from: nat, s: Scpi, origin: Origin, e: ParserEvent)
    requires from <= |s.log|
    ensures var t := Handle(s, origin, e);
      && from <= |t.log|
      && Produced(t.log[from..]) == Produced(s.log[from..]) + Tag(if e.Emit? then e.text else [], origin)
  {
    assert Produced(s.log[from..]) + [] == Produced(s.log[from..]);
    match e {
      case Emit(text) => NoteProduces(from, s, Appended(Tag(text, origin)));
      case EndOfReply =>
        NoteProduces(from, s, Flushed);
        if !s.external && s.client.Client? {
          NoteProduces(from, Note(s, Flushed), SentRaw(s.client.id, s.output));
        }
      case PeerLost =>
    }
  }

  /** Nothing was sent to the session or produced since entry `from`. */
  predicate QuietSince(from: nat, session: nat, log: seq<Event>) {
    from <= |log| && SentTo(session, log[from..]) == [] && Produced(log[from..]) == []
  }

  /** What a client got: the buffer as it was, then what was emitted; nothing stays behind. */
  predicate Replied(from: nat, session: nat, before: seq<Cell>, emitted: seq<Cell>, t: Scpi) {
    from <= |t.log| && t.output == [] && SentTo(session, t.log[from..]) == before + emitted
  }

  /** When the parser finishes its reply, an attached client in charge is sent all of it. */
  lemma FinishedReplyIsSent(from: nat, s: Scpi, origin: Origin, script: seq<ParserEvent>)
    requires !s.external && s.client.Client? && QuietSince(from, s.client.id, s.log)
    requires KeepsPeer(script) && script != [] && Finishes(script)
    ensures Replied(from, s.client.id, s.output, Tag(Emitted(script), origin), React(s, origin, script))
  {
    var t := React(s, origin, script);
    assert [] + s.output == s.output + [];
    ReactSends(s.output, from, s.client.id, s, origin, script);
    ReactProduces(from, s, origin, script);
    assert SentTo(s.client.id, t.log[from..]) + [] == SentTo(s.client.id, t.log[from..]);
    assert [] + Tag(Emitted(script), origin) == Tag(Emitted(script), origin);
  }

  /**
   * The turn that completes a line of an attached client: when the parser finishes its reply, the client is sent
   * what the buffer held before and then exactly what was emitted, and the buffer is empty.
   */
  lemma RawTurnReplies(s: Scpi, incoming: Client, script: seq<ParserEvent>)
    requires !s.external && s.client.Client? && s.client.rx != []
    requires TakeBytes(s.input, s.client.rx, RawSession(s.client.id)).Line?
    requires KeepsPeer(script) && script != [] && Finishes(script)
    ensures Replied(|s.log|, s.client.id, s.output, Tag(Emitted(script), RawSession(s.client.id)),
                    Loop(s, incoming, script))
  {
    var me := RawSession(s.client.id);
    var taken := TakeBytes(s.input, s.client.rx, me);
    var u := Start(LineInput(s, taken.input, taken.rest), me);
    StartIsQuiet(LineInput(s, taken.input, taken.rest), me);
    FinishedReplyIsSent(|s.log|, u, me, script);
  }

  lemma StartIsQuiet(s: Scpi, origin: Origin)
    requires s.client.Client?
    ensures QuietSince(|s.log|, s.client.id, Start(s, origin).log)
  {
    var e := Parsed(origin, s.input, s.client.Client?, s.linked);
    assert Start(s, origin).log[|s.log|..] == [] + [e];
    OneMoreSent(s.client.id, [], e);
  }

  // ----- Over the whole session -----

  /** Everything produced since entry `from` has been sent to the session, and nothing is left. */
  predicate AllSent(from: nat, session: nat, s: Scpi) {
    from <= |s.log| && s.output == [] && SentTo(session, s.log[from..]) == Produced(s.log[from..])
  }

  lemma AllSentIsAccount(from: nat, session: nat, s: Scpi)
    ensures AllSent(from, session, s) <==> SendAccount([], from, session, s) && s.output == []
  {
    if from <= |s.log| {
      assert SentTo(session, s.log[from..]) + [] == SentTo(session, s.log[from..]);
    }
  }

  lemma ParserInputSends(from: nat, session: nat, s: Scpi, script: seq<ParserEvent>)
    requires AllSent(from, session, s) && Serves(session, s) && KeepsPeer(script) && Finishes(script)
    ensures AllSent(from, session, ParserInput(s, RawSession(session), script))
  {
    var me := RawSession(session);
    var u := Start(s, me);
    AllSentIsAccount(from, session, s);
    NoteSends([], from, session, s, Parsed(me, s.input, s.client.Client?, s.linked), u);
    ReactSends([], from, session, u, me, script);
    AllSentIsAccount(from, session, ParserInput(s, me, script));
  }

  lemma ReceiveSends(from: nat, session: nat, s: Scpi, script: seq<ParserEvent>)
    requires AllSent(from, session, s) && Serves(session, s) && KeepsPeer(script) && Finishes(script)
    ensures AllSent(from, session, Receive(s, script))
  {
    var me := RawSession(session);
    if s.client.rx != [] {
      match TakeBytes(s.input, s.client.rx, me)
      case Line(input, rest) => ParserInputSends(from, session, LineInput(s, input, rest), script);
      case _ =>
    }
  }

  /** Whenever the parser speaks in this run, it finishes its reply. */
  predicate AllFinish(run: seq<Action>) {
    forall k | 0 <= k < |run| && run[k].ScpiTurn? :: Finishes(run[k].script)
  }

  lemma StepSends(from: nat, session: nat, e: Dongle, a: Action)
    requires DongleOk(e) && LeavesRaw(e, a) && AllSent(from, session, e.scpi) && Serves(session, e.scpi)
    requires a.ScpiTurn? ==> Finishes(a.script)
    ensures var t := Step(e, a).scpi;
      AllSent(from, session, t) && (t.client.Client? ==> Serves(session, t))
  {
    if Enabled(e, a) {
      match a {
        case ScpiTurn(incoming, script) =>
          ReceiveSends(from, session, e.scpi, script);
          ReceiveFrame(e.scpi, script);
        case VxiTurn(incoming, script) => VxiTurnLeavesRaw(e.vxi, e.scpi, incoming, script);
        case _ =>
      }
    }
  }

  /** The raw server never swaps its client for another one. */
  lemma ReceiveFrame(s: Scpi, script: seq<ParserEvent>)
    requires s.client.Client?
    ensures var c := Receive(s, script).client; c.Client? ==> c.id == s.client.id && c.connected == s.client.connected
  {
    var me := RawSession(s.client.id);
    if s.client.rx != [] {
      match TakeBytes(s.input, s.client.rx, me)
      case Line(input, rest) => ReactFrame(Start(LineInput(s, input, rest), me), me, script);
      case _ =>
    }
  }

  lemma {:induction false} RunSends(from: nat, session: nat, e: Dongle, run: seq<Action>)
    requires DongleOk(e) && RawHeld(e, run) && AllFinish(run) && !e.scpi.external
    requires AllSent(from, session, e.scpi) && (e.scpi.client.Client? ==> Serves(session, e.scpi))
    ensures var t := After(e, run).scpi;
      AllSent(from, session, t) && (t.client.Client? ==> Serves(session, t))
    decreases |run|
  {
    if run != [] {
      RunSends(from, session, e, run[..|run| - 1]);
      StepSends(from, session, After(e, run[..|run| - 1]), run[|run| - 1]);
    }
  }

  /**
   * From its attachment on, over every run that leaves a raw client attached and control untaken: if the parser
   * finishes what it says, every byte it says is sent to that client, in order, and none stays behind.
   */
  lemma RawSessionIsAnswered(d: Dongle, incoming: Client, script: seq<ParserEvent>, run: seq<Action>)
    requires DongleOk(d) && Attaches(d, incoming, script) && Finishes(script)
    requires RawHeld(Step(d, ScpiTurn(incoming, script)), run) && AllFinish(run)
    ensures AllSent(|Accept(d.scpi, incoming).log|, incoming.id, After(Step(d, ScpiTurn(incoming, script)), run).scpi)
  {
    var s0 := Accept(d.scpi, incoming);
    StepIsTurn(d);
    ReceiveSends(|s0.log|, incoming.id, s0, script);
    ReceiveFrame(s0, script);
    LoopFrame(d.scpi, incoming, script);
    RunSends(|s0.log|, incoming.id, Step(d, ScpiTurn(incoming, script)), run);
  }

  // ----- Making way -----

  /** Without external control no raw turn leaves a client attached whose peer is gone. */
  lemma DeadClientsAreDropped(s: Scpi, incoming: Client, script: seq<ParserEvent>)
    requires !s.external
    ensures var c := Loop(s, incoming, script).client; c.Client? ==> c.connected
  {
  }

  /** A client that lost its peer makes way, and the next one to come is attached. */
  lemma NextClientIsAttached(s: Scpi, ignored: Client, first: seq<ParserEvent>, incoming: Client, second: seq<ParserEvent>)
    requires !s.external && s.client.Client? && !s.client.connected
    requires incoming.Client? && incoming.connected && incoming.rx == []
    ensures var gone := Loop(s, ignored, first);
      gone.client.NoClient? && Loop(gone, incoming, second).client == incoming
  {
    ReceiveFrame(s, first);
    LoopFrame(s, ignored, first);
  }
}
