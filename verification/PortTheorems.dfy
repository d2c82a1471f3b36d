/** Which port the VXI server listens on, and how long a bind answer stays true. */
module PortTheorems {
  import opened Bytes
  import opened Sockets
  import opened CyclicPort
  import opened RpcPackets
  import opened ScpiModel
  import opened VxiModel
  import opened BindModel
  import opened MainLoop

  /** From one state to a later one the port has moved on by one position for every close. */
  predicate Rotated(d: Dongle, e: Dongle)
    requires DongleOk(d)
  {
    && e.vxi.closes >= d.vxi.closes
    && e.vxi.port == d.vxi.port.Ahead(e.vxi.closes - d.vxi.closes)
  }

  /** A turn of the VXI server closes at most one connection and moves the port only with that. */
  lemma TurnPort(v: Vxi, s: Scpi, incoming: Client, script: seq<ParserEvent>)
    requires Ok(v) && Servable(v)
    ensures var w := Turn(v, s, incoming, script).0;
      (w.port == v.port && w.closes == v.closes) || (w.port == v.port.Next() && w.closes == v.closes + 1)
  {
  }

  /** The same in terms of port numbers. */
  predicate ListensInTurn(v: Vxi, w: Vxi)
    requires Ok(v)
  {
    && w.closes >= v.closes
    && w.listening == v.port.start + (v.port.value - v.port.start + (w.closes - v.closes)) % v.port.Size()
    && (v.port.start == v.port.end ==> w.listening == v.listening)
  }

  lemma StepRotates(d: Dongle, e: Dongle, a: Action)
    requires DongleOk(d) && DongleOk(e) && Rotated(d, e)
    ensures Rotated(d, Step(e, a))
  {
    AheadStep(d.vxi.port, e.vxi.closes - d.vxi.closes);
    if a.VxiTurn? && Enabled(e, a) {
      TurnPort(e.vxi, e.scpi, a.incoming, a.script);
    }
  }

  lemma {:induction false} RunRotates(d: Dongle, run: seq<Action>)
    requires DongleOk(d)
    ensures Rotated(d, After(d, run))
    decreases |run|
  {
    if run == [] {
      AheadStep(d.vxi.port, 0);
    } else {
      RunRotates(d, run[..|run| - 1]);
      StepRotates(d, After(d, run[..|run| - 1]), run[|run| - 1]);
    }
  }

  /**
   * After `k` closes the port is `k` places further round its range, and the server listens exactly there;
   * with a single port nothing moves.
   */
  lemma PortRotation(d: Dongle, run: seq<Action>)
    requires Sound(d)
    ensures ListensInTurn(d.vxi, After(d, run).vxi)
  {
    RunSound(d, run);
    RunRotates(d, run);
    RotatedListens(d, After(d, run));
  }

  lemma RotatedListens(d: Dongle, e: Dongle)
    requires Sound(d) && Sound(e) && Rotated(d, e)
    ensures ListensInTurn(d.vxi, e.vxi)
  {
    var n := e.vxi.closes - d.vxi.closes;
    AheadStep(d.vxi.port, n);
    if d.vxi.port.Size() == 1 {
      ModUnique(d.vxi.port.value - d.vxi.port.start + n, n, 0, 1);
    }
  }

  /** Between two states the server has come back to its port exactly after whole turns of the range. */
  lemma SameListener(d: Dongle, e: Dongle)
    requires Sound(d) && Sound(e) && Rotated(d, e)
    ensures e.vxi.listening == d.vxi.listening <==> (e.vxi.closes - d.vxi.closes) % d.vxi.port.Size() == 0
  {
    AheadStep(d.vxi.port, 0);
    AheadCoincide(d.vxi.port, 0, e.vxi.closes - d.vxi.closes);
  }

  /** The last bind reply after a turn that sent one. */
  function LastReply(d: Dongle): (r: seq<byte>)
    requires d.bind.replies != []
  {
    d.bind.replies[|d.bind.replies| - 1].packet
  }

  predicate SendsReply(d: Dongle, udp: seq<byte>, tcp: Client)
    requires DongleOk(d)
  {
    |Step(d, RpcBindTurn(udp, tcp)).bind.replies| > |d.bind.replies|
  }

  lemma ReplyTellsListener(d: Dongle, udp: seq<byte>, tcp: Client)
    requires Sound(d) && d.vxi.port.start > 0 && SendsReply(d, udp, tcp)
    ensures Step(d, RpcBindTurn(udp, tcp)).bind.replies != []
    ensures var e := Step(d, RpcBindTurn(udp, tcp));
      && e.vxi == d.vxi && |LastReply(e)| == 28
      && PortTold(LastReply(e)) == (if Status(LastReply(e)) == SUCCESS then d.vxi.listening else 0)
      && d.vxi.listening != 0
  {
    assert d.phase == AtBind;
    StepIsTurn(d);
    if udp != [] {
      ProcessTells(Overlay(d.bind.udpBuf, 0, udp[..Min(UDP_READ_SIZE, |udp|)]), d.vxi);
    } else {
      ProcessTells(GetPacket(d.bind.tcpBuf, tcp.rx).buf[4..], d.vxi);
    }
  }

  /** Is what a reply told true of this state? */
  predicate StillTrue(reply: seq<byte>, v: Vxi)
    requires |reply| == 28
  {
    v.listening == PortTold(reply)
  }

  /**
   * What the last bind reply in state `f` said, seen from a later state `g`: any answer but SUCCESS carries
   * port 0; a SUCCESS carries the nonzero port listened on, and it is still true in `g` exactly when the
   * connections closed since then make up whole turns of the range - in particular if none was closed.
   */
  ghost predicate AnswerHolds(f: Dongle, g: Dongle)
    requires DongleOk(f) && f.bind.replies != [] && |LastReply(f)| == 28
  {
    if Status(LastReply(f)) != SUCCESS then
      PortTold(LastReply(f)) == 0
    else
      && PortTold(LastReply(f)) != 0 && StillTrue(LastReply(f), f.vxi)
      && g.vxi.closes >= f.vxi.closes
      && (StillTrue(LastReply(f), g.vxi) <==> (g.vxi.closes - f.vxi.closes) % f.vxi.port.Size() == 0)
  }

  lemma AnswerHoldsLater(f: Dongle, g: Dongle)
    requires Sound(f) && Sound(g) && Rotated(f, g) && f.vxi.listening != 0
    requires f.bind.replies != [] && |LastReply(f)| == 28
    requires PortTold(LastReply(f)) == (if Status(LastReply(f)) == SUCCESS then f.vxi.listening else 0)
    ensures AnswerHolds(f, g)
  {
    SameListener(f, g);
  }

  /** For every bind reply sent in a reachable state and every run that follows. */
  lemma BindAnswerStaysValid(d: Dongle, before: seq<Action>, udp: seq<byte>, tcp: Client, later: seq<Action>)
    returns (f: Dongle)
    requires Initially(d) && d.vxi.port.start > 0
    requires SendsReply(After(d, before), udp, tcp)
    ensures f == Step(After(d, before), RpcBindTurn(udp, tcp))
    ensures f.bind.replies != [] && |LastReply(f)| == 28
    ensures AnswerHolds(f, After(f, later))
  {
    RunSound(d, before);
    RunRotates(d, before);
    var e := After(d, before);
    f := Step(e, RpcBindTurn(udp, tcp));
    ReplyTellsListener(e, udp, tcp);
    StepSound(e, RpcBindTurn(udp, tcp));
    RunRotates(f, later);
    RunSound(f, later);
    AnswerHoldsLater(f, After(f, later));
  }
}
