/**
 * Sessions in the middle of everything else: over runs of the whole machine, a VXI-11 connection is answered
 * request by request, and a raw connection has its lines parsed one by one.
 */
module SessionTheorems {
  import opened Bytes
  import opened Sockets
  import opened ScpiModel
  import opened ScpiTheorems
  import opened LineAssembly
  import opened RpcPackets
  import opened VxiModel
  import opened VxiTheorems
  import opened VxiArrivals
  import opened MainLoop

  // ----- A VXI-11 connection -----

  function VxiData(a: Action): seq<byte> {
    if a.VxiBytes? then a.data else []
  }

  /** The bytes that came in on the VXI-11 connection. */
  function VxiArrived(run: seq<Action>): seq<byte> {
    if run == [] then [] else VxiArrived(run[..|run| - 1]) + VxiData(run[|run| - 1])
  }

  /** With `n` requests answered, the unread bytes are none or hold the next request whole. */
  predicate AtHand(reqs: seq<seq<byte>>, n: int, rx: seq<byte>) {
    rx == [] || (0 <= n < |reqs| && |rx| >= 4 + |reqs[n]|)
  }

  /** The connection is held, and a turn of its server does not find a part of a request. */
  ghost predicate ReadyFor(d: Dongle, reqs: seq<seq<byte>>, e: Dongle, a: Action)
    requires DongleOk(e)
  {
    && e.vxi.client.Client? && e.vxi.client.connected
    && (a.VxiTurn? && Enabled(e, a) ==> AtHand(reqs, |e.vxi.sent| - |d.vxi.sent|, e.vxi.client.rx))
  }

  /** So it is in front of every action of the run. */
  ghost predicate VxiHeld(d: Dongle, reqs: seq<seq<byte>>, run: seq<Action>)
    requires DongleOk(d)
  {
    run != [] ==>
      var before, a := run[..|run| - 1], run[|run| - 1];
      VxiHeld(d, reqs, before) && ReadyFor(d, reqs, After(d, before), a)
  }

  ghost predicate NoDestroy(reqs: seq<seq<byte>>, n: nat)
    requires n <= |reqs| && AllWellFormed(reqs)
  {
    forall k | 0 <= k < n :: !Calls(reqs[k], DESTROY_LINK)
  }

  /**
   * What the connection has been sent since `v0`: one reply for each of its first requests, in order. While it
   * is held the rest of its bytes is unread; it was closed only behind the answer to a DESTROY_LINK.
   */
  ghost predicate Conversation(v0: Vxi, reqs: seq<seq<byte>>, arrived: seq<byte>, replies: seq<seq<byte>>, v: Vxi) {
    && AllWellFormed(reqs) && Sendable(replies) && |replies| <= |reqs|
    && v.sent == v0.sent + Frames(replies)
    && RepliesTo(reqs, replies)
    && (v.client.Client? ==>
          && arrived == Records(reqs[..|replies|]) + v.client.rx
          && NoDestroy(reqs, |replies|) && v.closes == v0.closes)
    && (v.closes != v0.closes ==> replies != [] && Calls(reqs[|replies| - 1], DESTROY_LINK))
  }

  lemma {:induction false} RecordsSplit(all: seq<seq<byte>>, a: seq<seq<byte>>, b: seq<seq<byte>>)
    requires Framable(all) && Framable(a) && Framable(b) && all == a + b
    ensures Records(all) == Records(a) + Records(b)
    decreases |a|
  {
    if a == [] {
      assert all == b;
    } else {
      assert all[0] == a[0] && all[1..] == a[1..] + b;
      RecordsSplit(all[1..], a[1..], b);
    }
  }

  /** Of a stream of requests, the part behind some of them is the stream of the others. */
  lemma UnreadIsRest(all: seq<seq<byte>>, a: seq<seq<byte>>, b: seq<seq<byte>>, rx: seq<byte>)
    requires Framable(all) && Framable(a) && Framable(b) && all == a + b && Records(a) + rx <= Records(all)
    ensures rx <= Records(b)
  {
    RecordsSplit(all, a, b);
    PrefixBehind(Records(a), rx, Records(b));
  }

  lemma PrefixBehind(head: seq<byte>, x: seq<byte>, y: seq<byte>)
    requires head + x <= head + y
    ensures x <= y
  {
    assert forall i | 0 <= i < |x| :: (head + x)[|head| + i] == x[i] && (head + y)[|head| + i] == y[i];
  }

  lemma WholeRequest(reqs: seq<seq<byte>>, n: nat, rx: seq<byte>) returns (rest: seq<byte>)
    requires Framable(reqs) && n < |reqs| && |rx| >= 4 + |reqs[n]|
    requires Records(reqs[..n]) + rx <= Records(reqs)
    ensures rx == Record(reqs[n]) + rest
    ensures Records(reqs[..n]) + rx == Records(reqs[..n + 1]) + rest
  {
    assert reqs == reqs[..n] + reqs[n..];
    UnreadIsRest(reqs, reqs[..n], reqs[n..], rx);
    rest := rx[4 + |reqs[n]|..];
    var head := Record(reqs[n]);
    assert Records(reqs[n..]) == head + Records(reqs[n..][1..]);
    assert rx[..|head|] == head;
    RecordsOneMore(reqs[..n], reqs[n]);
    assert reqs[..n + 1] == reqs[..n] + [reqs[n]];
    assert Records(reqs[..n]) + (head + rest) == Records(reqs[..n]) + head + rest;
  }

  /** A turn that finds the next request whole answers it. */
  lemma TurnConverses(v0: Vxi, reqs: seq<seq<byte>>, arrived: seq<byte>, replies: seq<seq<byte>>, v: Vxi, s: Scpi,
                      incoming: Client, script: seq<ParserEvent>) returns (more: seq<seq<byte>>)
    requires Ok(v) && v.client.Client? && v.client.connected && Servable(v)
    requires Conversation(v0, reqs, arrived, replies, v) && arrived <= Records(reqs)
    requires AtHand(reqs, |replies|, v.client.rx)
    ensures Conversation(v0, reqs, arrived, more, VxiModel.Turn(v, s, incoming, script).0)
  {
    if v.client.rx == [] {
      more := replies;
      IdleTurn(v, s, incoming, script);
      GoneConverses(v0, reqs, arrived, replies, v, VxiModel.Turn(v, s, incoming, script).0);
    } else {
      more := RequestConverses(v0, reqs, arrived, replies, v, s, incoming, script);
    }
  }

  lemma RequestConverses(v0: Vxi, reqs: seq<seq<byte>>, arrived: seq<byte>, replies: seq<seq<byte>>, v: Vxi, s: Scpi,
                         incoming: Client, script: seq<ParserEvent>) returns (more: seq<seq<byte>>)
    requires Ok(v) && v.client.Client? && v.client.connected && Servable(v)
    requires Conversation(v0, reqs, arrived, replies, v) && arrived <= Records(reqs)
    requires |replies| < |reqs| && |v.client.rx| >= 4 + |reqs[|replies|]|
    ensures Conversation(v0, reqs, arrived, more, VxiModel.Turn(v, s, incoming, script).0)
  {
    var rest := WholeRequest(reqs, |replies|, v.client.rx);
    var r := OneAnswered(v, s, reqs[|replies|], rest, incoming, script);
    more := replies + [r.reply];
    OneMoreReply(v0, reqs, arrived, replies, v, VxiModel.Turn(v, s, incoming, script).0, r, rest);
  }

  /** What is served answers the request, and closes the connection exactly for DESTROY_LINK. */
  ghost predicate Answers(req: seq<byte>, r: Served)
    requires WellFormed(req)
  {
    |r.reply| <= 36 + READ_CHUNK && ReplyTo(req, r.reply) && (r.close <==> Calls(req, DESTROY_LINK))
  }

  lemma OneAnswered(v: Vxi, s: Scpi, req: seq<byte>, rest: seq<byte>, incoming: Client, script: seq<ParserEvent>)
    returns (r: Served)
    requires WellFormed(req) && Ok(v) && v.client.Client? && v.client.connected && Servable(v)
    requires v.client.rx == Record(req) + rest
    ensures Answers(req, r) && TurnLeaves(v, VxiModel.Turn(v, s, incoming, script).0, r, rest)
  {
    r := Answer(s, req, v.client.id, script);
    NextRequest(v, s, req, rest, incoming, script);
    ReplyMatchesRequest(s, req, v.client.id, script);
  }

  lemma OneMoreReply(v0: Vxi, reqs: seq<seq<byte>>, arrived: seq<byte>, replies: seq<seq<byte>>, v: Vxi, w: Vxi,
                     r: Served, rest: seq<byte>)
    requires v.client.Client? && Conversation(v0, reqs, arrived, replies, v) && |replies| < |reqs|
    requires Answers(reqs[|replies|], r)
    requires TurnLeaves(v, w, r, rest) && arrived == Records(reqs[..|replies| + 1]) + rest
    ensures Conversation(v0, reqs, arrived, replies + [r.reply], w)
  {
    FramesOneMore(replies, r.reply);
    OneMoreReplyTo(reqs, replies, r.reply);
    assert v0.sent + Frames(replies) + [Frame(r.reply)] == v0.sent + (Frames(replies) + [Frame(r.reply)]);
  }

  lemma {:induction false} FramesLength(replies: seq<seq<byte>>)
    requires Sendable(replies)
    ensures |Frames(replies)| == |replies|
    decreases |replies|
  {
    if replies != [] {
      FramesLength(replies[1..]);
    }
  }

  lemma StepConverses(v0: Vxi, reqs: seq<seq<byte>>, arrived: seq<byte>, replies: seq<seq<byte>>, e: Dongle, a: Action)
    returns (more: seq<seq<byte>>)
    requires DongleOk(e) && e.vxi.client.Client? && e.vxi.client.connected
    requires Conversation(v0, reqs, arrived, replies, e.vxi) && arrived + VxiData(a) <= Records(reqs)
    requires a.VxiTurn? && Enabled(e, a) ==> AtHand(reqs, |replies|, e.vxi.client.rx)
    ensures Conversation(v0, reqs, arrived + VxiData(a), more, Step(e, a).vxi)
  {
    more := replies;
    assert arrived + [] == arrived;
    if a.VxiTurn? && Enabled(e, a) {
      more := TurnConverses(v0, reqs, arrived, replies, e.vxi, e.scpi, a.incoming, a.script);
      StepIsTurn(e);
    } else if a.VxiBytes? {
      BytesConverse(v0, reqs, arrived, replies, e.vxi, a.data);
    } else {
      assert Step(e, a).vxi.client in {e.vxi.client, LosePeer(e.vxi.client), NoClient};
      GoneConverses(v0, reqs, arrived, replies, e.vxi, Step(e, a).vxi);
    }
  }

  lemma BytesConverse(v0: Vxi, reqs: seq<seq<byte>>, arrived: seq<byte>, replies: seq<seq<byte>>, v: Vxi,
                      data: seq<byte>)
    requires v.client.Client? && Conversation(v0, reqs, arrived, replies, v)
    ensures Conversation(v0, reqs, arrived + data, replies, v.(client := Deliver(v.client, data)))
  {
    assert Records(reqs[..|replies|]) + v.client.rx + data == Records(reqs[..|replies|]) + (v.client.rx + data);
  }

  lemma GoneConverses(v0: Vxi, reqs: seq<seq<byte>>, arrived: seq<byte>, replies: seq<seq<byte>>, v: Vxi, w: Vxi)
    requires Conversation(v0, reqs, arrived, replies, v) && w.sent == v.sent && w.closes == v.closes
    requires w.client.NoClient? || (v.client.Client? && w.client.rx == v.client.rx)
    ensures Conversation(v0, reqs, arrived, replies, w)
  {
  }

  /**
   * While a connection is held, whatever raw turns and port mapper calls come between and however its stream is
   * cut up, the frames it is sent answer its requests in order, each with one reply of its own. The one proviso
   * is that no turn finds a part of a request.
   */
  lemma {:induction false} HeldConnectionIsAnswered(d: Dongle, reqs: seq<seq<byte>>, run: seq<Action>)
    returns (replies: seq<seq<byte>>)
    requires DongleOk(d) && d.vxi.client.Client? && d.vxi.client.rx == []
    requires AllWellFormed(reqs) && VxiArrived(run) <= Records(reqs) && VxiHeld(d, reqs, run)
    ensures Conversation(d.vxi, reqs, VxiArrived(run), replies, After(d, run).vxi)
    decreases |run|
  {
    if run == [] {
      replies := [];
      assert d.vxi.sent + Frames([]) == d.vxi.sent && reqs[..0] == [];
    } else {
      var before, a := run[..|run| - 1], run[|run| - 1];
      replies := HeldConnectionIsAnswered(d, reqs, before);
      FramesLength(replies);
      replies := StepConverses(d.vxi, reqs, VxiArrived(before), replies, After(d, before), a);
    }
  }

  // ----- A raw connection -----

  function RawData(a: Action): seq<byte> {
    if a.RawBytes? then a.data else []
  }

  /** The bytes that came in on the raw connection. */
  function RawArrived(run: seq<Action>): seq<byte> {
    if run == [] then [] else RawArrived(run[..|run| - 1]) + RawData(run[|run| - 1])
  }

  /** Does the environment take the raw client away? */
  predicate LosesRaw(e: Dongle, a: Action) {
    match a
    case RawDrop => true
    case RawVanish => true
    case ScpiTurn(_, script) => !KeepsPeer(script)
    case HttpTurn(DropRawClient(ip)) => IsPeer(e.scpi.client, ip)
    case _ => false
  }

  /** The raw client is attached and not about to be lost, and the action leaves control alone. */
  ghost predicate LeavesRaw(e: Dongle, a: Action)
    requires DongleOk(e)
  {
    e.scpi.client.Client? && !LosesRaw(e, a) && !Step(e, a).scpi.external
  }

  /** So it is for every action of the run. */
  ghost predicate RawHeld(d: Dongle, run: seq<Action>)
    requires DongleOk(d)
  {
    run != [] ==>
      var before, a := run[..|run| - 1], run[|run| - 1];
      RawHeld(d, before) && LeavesRaw(After(d, before), a)
  }

  /** A VXI-11 turn that leaves control alone does not reach the parser. */
  lemma ServeLeavesRaw(s: Scpi, packet: seq<byte>, conn: nat, script: seq<ParserEvent>)
    requires InnerFits(packet) && !s.external && !Serve(s, packet, conn, script).scpi.external
    ensures Serve(s, packet, conn, script).scpi in {s, s.(linked := false)}
  {
    if Calls(packet, DEV_WRITE) {
      WriteFrame(s, VxiSession(conn), RightTrim(WriteData(packet)), script);
    }
  }

  lemma VxiTurnLeavesRaw(v: Vxi, s: Scpi, incoming: Client, script: seq<ParserEvent>)
    requires Ok(v) && Servable(v) && !s.external && !VxiModel.Turn(v, s, incoming, script).1.external
    ensures VxiModel.Turn(v, s, incoming, script).1 in {s, s.(linked := false)}
  {
    if Serving(v) {
      TurnServes(v, s, incoming, script);
      ServeLeavesRaw(s, Incoming(v).buf[4..], v.client.id, script);
    }
  }

  lemma StepAssembles(s0: Scpi, stream: seq<byte>, longer: seq<byte>, e: Dongle, a: Action)
    requires DongleOk(e) && LeavesRaw(e, a)
    requires Assembled(s0, e.scpi, stream) && longer == stream + RawData(a)
    ensures Assembled(s0, Step(e, a).scpi, longer)
  {
    assert !a.RawBytes? ==> longer == stream;
    if Enabled(e, a) {
      match a {
        case RawBytes(data) => ArriveAssembles(s0, e.scpi, stream, data);
        case ScpiTurn(incoming, script) =>
          assert Loop(e.scpi, incoming, script) == Loop(e.scpi, NoClient, script);
          PollAssembles(s0, e.scpi, stream, script);
        case VxiTurn(incoming, script) => VxiTurnLeavesRaw(e.vxi, e.scpi, incoming, script);
        case _ =>
      }
    }
  }

  lemma {:induction false} RunAssembles(s0: Scpi, stream: seq<byte>, e: Dongle, run: seq<Action>)
    requires DongleOk(e) && RawHeld(e, run) && Assembled(s0, e.scpi, stream)
    ensures Assembled(s0, After(e, run).scpi, stream + RawArrived(run))
    decreases |run|
  {
    if run == [] {
      assert stream + [] == stream;
    } else {
      var before, a := run[..|run| - 1], run[|run| - 1];
      RunAssembles(s0, stream, e, before);
      var soFar := stream + RawArrived(before);
      assert stream + RawArrived(run) == soFar + RawData(a);
      StepAssembles(s0, soFar, stream + RawArrived(run), After(e, before), a);
    }
  }

  /** The turn in which a raw client is attached, with whatever it has sent by then. */
  predicate Attaches(d: Dongle, incoming: Client, script: seq<ParserEvent>) {
    && d.phase == AtScpi && d.scpi.client.NoClient? && !d.scpi.external
    && incoming.Client? && incoming.connected && KeepsPeer(script)
  }

  /**
   * From its attachment on, whatever turns of the other components come between and however its stream is cut up,
   * the parser is given exactly the complete lines of a raw client, in order, while the rest waits in the buffer;
   * the client is stopped only for a line that is too long, with every earlier one parsed.
   */
  lemma RawSessionIsAssembled(d: Dongle, incoming: Client, script: seq<ParserEvent>, run: seq<Action>)
    requires DongleOk(d) && Attaches(d, incoming, script)
    requires RawHeld(Step(d, ScpiTurn(incoming, script)), run)
    ensures Assembled(Accept(d.scpi, incoming), After(Step(d, ScpiTurn(incoming, script)), run).scpi,
                      incoming.rx + RawArrived(run))
  {
    var s0, e := Accept(d.scpi, incoming), Step(d, ScpiTurn(incoming, script));
    StepIsTurn(d);
    assert NewLines(s0, s0) == [] && [] + ([] + incoming.rx) == incoming.rx;
    assert Assembled(s0, s0, incoming.rx);
    PollAssembles(s0, s0, incoming.rx, script);
    RunAssembles(s0, incoming.rx, e, run);
  }
}
