/** What every operation of the SCPI front end keeps: output conservation and session isolation. */
module ScpiTheorems {
  import opened Bytes
  import opened Sockets
  import opened ScpiModel

  // ----- Output conservation -----

  /** All bytes ever passed to SCPI_Write, in order. */
  function Produced(log: seq<Event>): seq<Cell> {
    if log == [] then []
    else
      var e := log[|log| - 1];
      Produced(log[..|log| - 1]) + if e.Appended? then e.cells else []
  }

  /** All bytes that ever left the output buffer, in order. */
  function Drained(log: seq<Event>): seq<Cell> {
    if log == [] then []
    else
      var e := log[|log| - 1];
      Drained(log[..|log| - 1]) + if e.SentRaw? || e.ReadByVxi? || e.Discarded? then e.cells else []
  }

  /** Has a flush followed the last append (or was nothing appended yet)? */
  predicate FlushedSinceAppend(log: seq<Event>) {
    log == [] ||
    var e := log[|log| - 1];
    e.Flushed? || (!e.Appended? && FlushedSinceAppend(log[..|log| - 1]))
  }

  /** A VXI read that delivers bytes delivers a finished reply. */
  predicate ReadsAreFinished(log: seq<Event>) {
    forall k | 0 <= k < |log| && log[k].ReadByVxi? :: FlushedSinceAppend(log[..k])
  }

  predicate Conserved(s: Scpi) {
    && Produced(s.log) == Drained(s.log) + s.output
    && (s.ready ==> FlushedSinceAppend(s.log))
    && ReadsAreFinished(s.log)
  }

  /** What one more log entry adds to the account. */
  lemma NoteCounts(s: Scpi, e: Event)
    ensures var log := Note(s, e).log;
      && Produced(log) == Produced(s.log) + (if e.Appended? then e.cells else [])
      && Drained(log) == Drained(s.log) + (if e.SentRaw? || e.ReadByVxi? || e.Discarded? then e.cells else [])
      && (FlushedSinceAppend(log) <==> e.Flushed? || (!e.Appended? && FlushedSinceAppend(s.log)))
    ensures ReadsAreFinished(s.log) && (e.ReadByVxi? ==> FlushedSinceAppend(s.log))
      ==> ReadsAreFinished(Note(s, e).log)
  {
    var log := Note(s, e).log;
    assert log[..|log| - 1] == s.log;
    if ReadsAreFinished(s.log) && (e.ReadByVxi? ==> FlushedSinceAppend(s.log)) {
      forall k | 0 <= k < |log| && log[k].ReadByVxi? ensures FlushedSinceAppend(log[..k]) {
        if k < |s.log| {
          assert log[..k] == s.log[..k];
        }
      }
    }
  }

  lemma AppendConserves(s: Scpi, cells: seq<Cell>)
    requires Conserved(s)
    ensures Conserved(Append(s, cells))
  {
    NoteCounts(s, Appended(cells));
    assert Drained(s.log) + (s.output + cells) == Drained(s.log) + s.output + cells;
  }

  /** Emptying the output buffer under an entry that records its bytes. */
  lemma DrainConserves(s: Scpi, e: Event)
    requires Conserved(s)
    requires (e.SentRaw? || e.ReadByVxi? || e.Discarded?) && e.cells == s.output
    requires e.ReadByVxi? ==> s.ready
    ensures Conserved(Note(s.(output := []), e))
  {
    NoteCounts(s, e);
    assert Note(s.(output := []), e).log == Note(s, e).log;
  }

  lemma NeutralConserves(s: Scpi, e: Event)
    requires Conserved(s) && (e.Parsed? || e.Flushed?)
    ensures Conserved(Note(s, e))
  {
    NoteCounts(s, e);
  }

  lemma FlushConserves(s: Scpi)
    requires Conserved(s)
    ensures Conserved(Flush(s))
  {
    NoteCounts(s, Flushed);
    if !s.external && s.client.Client? {
      NeutralConserves(s, Flushed);
      DrainConserves(Note(s, Flushed), SentRaw(s.client.id, s.output));
    }
  }

  lemma {:induction false} ReactConserves(s: Scpi, origin: Origin, script: seq<ParserEvent>)
    requires Conserved(s)
    ensures Conserved(React(s, origin, script))
    decreases |script|
  {
    if script != [] {
      match script[0] {
        case Emit(text) => AppendConserves(s, Tag(text, origin));
        case EndOfReply => FlushConserves(s);
        case PeerLost =>
      }
      ReactConserves(Handle(s, origin, script[0]), origin, script[1..]);
    }
  }

  lemma ParserInputConserves(s: Scpi, origin: Origin, script: seq<ParserEvent>)
    requires Conserved(s)
    ensures Conserved(ParserInput(s, origin, script))
  {
    var line := Parsed(origin, s.input, s.client.Client?, s.linked);
    NeutralConserves(s.(input := []), line);
    ReactConserves(Start(s, origin), origin, script);
  }

  /** Every operation keeps the account of the output bytes. */
  lemma WriteConserves(s: Scpi, origin: Origin, data: seq<byte>, script: seq<ParserEvent>)
    requires Conserved(s)
    ensures Conserved(Write(s, origin, data, script))
  {
    if Accepts(data) {
      ParserInputConserves(WriteInput(s, origin, data), origin, script);
    }
  }

  lemma ReadConserves(s: Scpi, reader: nat, maxLen: nat)
    requires Conserved(s)
    ensures Conserved(Read(s, reader, maxLen).0)
  {
    if Readable(s, maxLen) {
      DrainConserves(s, ReadByVxi(reader, s.output));
    }
  }

  lemma LoopConserves(s: Scpi, incoming: Client, script: seq<ParserEvent>)
    requires Conserved(s)
    ensures Conserved(Loop(s, incoming, script))
  {
    DrainConserves(s.(client := incoming, input := []), Discarded(s.output));
    var t := Accept(s, incoming);
    assert Conserved(t);
    ReceiveConserves(t, script);
  }

  lemma ReceiveConserves(t: Scpi, script: seq<ParserEvent>)
    requires Conserved(t)
    ensures Conserved(Receive(t, script))
  {
    if t.client.Client? && t.client.rx != [] {
      match TakeBytes(t.input, t.client.rx, RawSession(t.client.id))
      case Line(input, rest) =>
        ParserInputConserves(LineInput(t, input, rest), RawSession(t.client.id), script);
      case _ =>
    }
  }

  // ----- Exclusion and isolation -----

  ghost predicate AllFrom(cells: seq<Cell>, origin: Origin) {
    forall i | 0 <= i < |cells| :: cells[i].origin == origin
  }

  /** Neither front end is served while the other one is in charge of the parser. */
  predicate Exclusive(e: Event) {
    e.Parsed? ==> if e.origin.VxiSession? then e.linkUp && !e.rawAttached else !e.linkUp
  }

  /** Parsed lines and bytes sent to a raw client belong to the session they are handled for. */
  ghost predicate OwnBytes(e: Event) {
    && (e.Parsed? ==> AllFrom(e.line, e.origin))
    && (e.SentRaw? ==> AllFrom(e.cells, RawSession(e.session)))
  }

  /** While a raw client is attached, both buffers hold bytes of that session only. */
  ghost predicate BuffersOwned(s: Scpi) {
    s.client.Client? ==>
      AllFrom(s.output, RawSession(s.client.id)) && AllFrom(s.input, RawSession(s.client.id))
  }

  predicate AllExclusive(log: seq<Event>) {
    forall k | 0 <= k < |log| :: Exclusive(log[k])
  }

  ghost predicate AllOwnBytes(log: seq<Event>) {
    forall k | 0 <= k < |log| :: OwnBytes(log[k])
  }

  ghost predicate Isolated(s: Scpi) {
    BuffersOwned(s) && AllExclusive(s.log) && AllOwnBytes(s.log)
  }

  /** The parser works for the attached raw client, or no raw client is attached. */
  predicate WorksFor(s: Scpi, origin: Origin) {
    s.client.Client? ==> origin == RawSession(s.client.id)
  }

  lemma {:induction false} ReactIsolated(s: Scpi, origin: Origin, script: seq<ParserEvent>)
    requires Isolated(s) && WorksFor(s, origin)
    ensures Isolated(React(s, origin, script))
    decreases |script|
  {
    if script != [] {
      ReactIsolated(Handle(s, origin, script[0]), origin, script[1..]);
    }
  }

  lemma ParserInputIsolated(s: Scpi, origin: Origin, script: seq<ParserEvent>)
    requires Isolated(s) && WorksFor(s, origin) && AllFrom(s.input, origin)
    requires if origin.VxiSession? then s.linked && s.client.NoClient? else !s.linked
    ensures Isolated(ParserInput(s, origin, script))
  {
    ReactIsolated(Start(s, origin), origin, script);
  }

  lemma {:induction false} TakeBytesOwned(input: seq<Cell>, rx: seq<byte>, origin: Origin)
    requires AllFrom(input, origin)
    ensures var t := TakeBytes(input, rx, origin); !t.Overflow? ==> AllFrom(t.input, origin)
    decreases |rx|
  {
    if rx != [] {
      TakeBytesOwned(input + [Cell(rx[0], origin)], rx[1..], origin);
    }
  }

  /** A VXI command given to the parser while its connection holds a link and no raw client is attached. */
  lemma WriteIsolated(s: Scpi, id: nat, data: seq<byte>, script: seq<ParserEvent>)
    requires Isolated(s) && s.linked && s.client.NoClient?
    ensures Isolated(Write(s, VxiSession(id), data, script))
  {
    if Accepts(data) {
      ParserInputIsolated(WriteInput(s, VxiSession(id), data), VxiSession(id), script);
    }
  }

  /** A turn of the raw server, in any state where a link implies external control. */
  lemma LoopIsolated(s: Scpi, incoming: Client, script: seq<ParserEvent>)
    requires Isolated(s) && (s.linked ==> s.external)
    ensures Isolated(Loop(s, incoming, script))
  {
    if !s.external {
      var t := Accept(s, incoming);
      assert Isolated(t);
      if t.client.Client? && t.client.rx != [] {
        var me := RawSession(t.client.id);
        TakeBytesOwned(t.input, t.client.rx, me);
        match TakeBytes(t.input, t.client.rx, me)
        case Line(input, rest) => ParserInputIsolated(LineInput(t, input, rest), me, script);
        case _ =>
      }
    }
  }

  // ----- What the parser cannot touch -----

  /** The parser never changes the control flag or the link, never attaches a client and never fills the input. */
  lemma {:induction false} ReactFrame(s: Scpi, origin: Origin, script: seq<ParserEvent>)
    ensures var t := React(s, origin, script);
      && t.external == s.external && t.linked == s.linked && t.input == s.input
      && (t.client == s.client || t.client.NoClient?)
      && s.log <= t.log
    decreases |script|
  {
    if script != [] {
      ReactFrame(Handle(s, origin, script[0]), origin, script[1..]);
    }
  }

  lemma WriteFrame(s: Scpi, origin: Origin, data: seq<byte>, script: seq<ParserEvent>)
    ensures var t := Write(s, origin, data, script);
      && t.linked == s.linked && t.external == (s.external || Accepts(data))
      && (t.client == s.client || t.client.NoClient?)
  {
    if Accepts(data) {
      ReactFrame(Start(WriteInput(s, origin, data), origin), origin, script);
    }
  }

  lemma LoopFrame(s: Scpi, incoming: Client, script: seq<ParserEvent>)
    ensures var t := Loop(s, incoming, script);
      t.external == s.external && t.linked == s.linked && (s.external ==> t.client.NoClient?)
  {
    var u := Accept(s, incoming);
    if u.client.Client? && u.client.rx != [] {
      match TakeBytes(u.input, u.client.rx, RawSession(u.client.id))
      case Line(input, rest) =>
        var me := RawSession(u.client.id);
        ReactFrame(Start(LineInput(u, input, rest), me), me, script);
      case _ =>
    }
  }
}
