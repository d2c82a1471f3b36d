/** A session whose requests trickle in between the turns of the server. */
module VxiArrivals {
  import opened Bytes
  import opened Sockets
  import opened CyclicPort
  import opened ScpiModel
  import opened RpcPackets
  import opened VxiModel
  import opened VxiTheorems

  /** A whole request arrives, or the server has a turn. */
  datatype Moment = Arrive(req: seq<byte>) | Go(script: seq<ParserEvent>)

  ghost predicate WholeRequests(moments: seq<Moment>) {
    forall k | 0 <= k < |moments| && moments[k].Arrive? :: WellFormed(moments[k].req)
  }

  // ----- The server -----

  function Act(v: Vxi, s: Scpi, m: Moment): (Vxi, Scpi)
    requires Ok(v) && (m.Arrive? ==> |m.req| < 0x8000_0000)
  {
    match m
    case Arrive(req) => (v.(client := Deliver(v.client, Record(req))), s)
    case Go(script) => if Servable(v) then Turn(v, s, NoClient, script) else (v, s)
  }

  /** The state after all of these moments. */
  ghost function Follow(v: Vxi, s: Scpi, moments: seq<Moment>): (r: (Vxi, Scpi))
    requires Ok(v) && WholeRequests(moments)
    ensures Ok(r.0)
  {
    if moments == [] then (v, s)
    else
      var (w, t) := Follow(v, s, moments[..|moments| - 1]);
      ActKeepsOk(w, t, moments[|moments| - 1]);
      Act(w, t, moments[|moments| - 1])
  }

  lemma ActKeepsOk(v: Vxi, s: Scpi, m: Moment)
    requires Ok(v) && (m.Arrive? ==> |m.req| < 0x8000_0000)
    ensures Ok(Act(v, s, m).0)
  {
    NextPrevInverse(v.port);
  }

  // ----- What the client is promised: a queue -----

  datatype Queue = Queue(
    scpi: Scpi,
    waiting: seq<seq<byte>>,
    asked: seq<seq<byte>>,
    replies: seq<seq<byte>>,
    closed: bool)

  /** Each turn answers the request that has waited longest; the first DESTROY_LINK closes the session. */
  ghost function Next(q: Queue, conn: nat, m: Moment): Queue
    requires AllWellFormed(q.waiting)
  {
    if q.closed then q
    else
      match m
      case Arrive(req) => q.(waiting := q.waiting + [req], asked := q.asked + [req])
      case Go(script) =>
        if q.waiting == [] then q
        else
          var r := Answer(q.scpi, q.waiting[0], conn, script);
          Queue(r.scpi, q.waiting[1..], q.asked, q.replies + [r.reply], r.close)
  }

  ghost function Queued(s: Scpi, conn: nat, moments: seq<Moment>): (q: Queue)
    requires WholeRequests(moments)
    ensures AllWellFormed(q.waiting) && Sendable(q.replies)
  {
    if moments == [] then Queue(s, [], [], [], false)
    else Next(Queued(s, conn, moments[..|moments| - 1]), conn, moments[|moments| - 1])
  }

  /** Each reply answers the request at its place. */
  ghost predicate RepliesTo(reqs: seq<seq<byte>>, replies: seq<seq<byte>>)
    requires AllWellFormed(reqs) && |replies| <= |reqs|
  {
    forall k {:trigger ReplyTo(reqs[k], replies[k])} | 0 <= k < |replies| :: ReplyTo(reqs[k], replies[k])
  }

  lemma OneMoreReplyTo(reqs: seq<seq<byte>>, replies: seq<seq<byte>>, r: seq<byte>)
    requires AllWellFormed(reqs) && |replies| < |reqs| && RepliesTo(reqs, replies) && ReplyTo(reqs[|replies|], r)
    ensures RepliesTo(reqs, replies + [r])
  {
    forall k | 0 <= k < |replies| ensures ReplyTo(reqs[k], (replies + [r])[k]) {
      assert ReplyTo(reqs[k], replies[k]);
    }
  }

  lemma AskedMore(asked: seq<seq<byte>>, req: seq<byte>, replies: seq<seq<byte>>)
    requires AllWellFormed(asked) && WellFormed(req) && |replies| <= |asked| && RepliesTo(asked, replies)
    ensures AllWellFormed(asked + [req]) && RepliesTo(asked + [req], replies)
  {
    forall k | 0 <= k < |replies| ensures ReplyTo((asked + [req])[k], replies[k]) {
      assert ReplyTo(asked[k], replies[k]);
    }
  }

  /**
   * Replies go out in the order of the requests, each to its own; nothing that arrived in time is lost, and
   * the session is closed exactly once it has answered a DESTROY_LINK.
   */
  ghost predicate InOrder(q: Queue) {
    && |q.replies| <= |q.asked| && AllWellFormed(q.asked)
    && q.waiting == q.asked[|q.replies|..]
    && RepliesTo(q.asked, q.replies)
    && (forall k | 0 <= k < |q.replies| ::
          Calls(q.asked[k], DESTROY_LINK) <==> q.closed && k == |q.replies| - 1)
  }

  lemma NextInOrder(q: Queue, conn: nat, m: Moment)
    requires AllWellFormed(q.waiting) && InOrder(q) && (m.Arrive? ==> WellFormed(m.req))
    ensures InOrder(Next(q, conn, m))
  {
    if m.Arrive? {
      AskedMore(q.asked, m.req, q.replies);
    } else if !q.closed && q.waiting != [] {
      ReplyMatchesRequest(q.scpi, q.waiting[0], conn, m.script);
      assert q.waiting[0] == q.asked[|q.replies|];
      OneMoreReplyTo(q.asked, q.replies, Answer(q.scpi, q.waiting[0], conn, m.script).reply);
    }
  }

  // ----- The server keeps the promise -----

  /** The server as the client of the connection in `v0` sees it. */
  ghost predicate Matches(v0: Vxi, q: Queue, v: Vxi, s: Scpi)
    requires v0.client.Client? && AllWellFormed(q.waiting) && Sendable(q.replies)
  {
    && Ok(v) && s == q.scpi && v.sent == v0.sent + Frames(q.replies)
    && if q.closed then v.client.NoClient? && v.closes == v0.closes + 1
       else v.client == v0.client.(rx := Records(q.waiting)) && v.closes == v0.closes
  }

  lemma {:induction false} RecordsOneMore(reqs: seq<seq<byte>>, req: seq<byte>)
    requires Framable(reqs) && |req| < 0x8000_0000
    ensures Records(reqs + [req]) == Records(reqs) + Record(req)
    decreases |reqs|
  {
    if reqs == [] {
      assert reqs + [req] == [req] && [req][1..] == [];
      assert Records([req]) == Record(req) + Records([]);
    } else {
      assert (reqs + [req])[0] == reqs[0] && (reqs + [req])[1..] == reqs[1..] + [req];
      RecordsOneMore(reqs[1..], req);
    }
  }

  lemma {:induction false} FramesOneMore(replies: seq<seq<byte>>, r: seq<byte>)
    requires Sendable(replies) && |r| <= 36 + READ_CHUNK
    ensures Frames(replies + [r]) == Frames(replies) + [Frame(r)]
    decreases |replies|
  {
    if replies == [] {
      assert replies + [r] == [r] && [r][1..] == [];
      assert Frames([r]) == [Frame(r)] + Frames([]);
    } else {
      assert (replies + [r])[0] == replies[0] && (replies + [r])[1..] == replies[1..] + [r];
      FramesOneMore(replies[1..], r);
    }
  }

  /** With nothing at hand a turn changes nothing the client can see. */
  lemma IdleTurn(v: Vxi, s: Scpi, incoming: Client, script: seq<ParserEvent>)
    requires Ok(v) && v.client.Client? && v.client.connected && v.client.rx == []
    ensures Servable(v)
    ensures var (w, t) := Turn(v, s, incoming, script);
      Ok(w) && t == s && w.client == v.client && w.sent == v.sent && w.closes == v.closes
  {
    NothingAtHand(v.buf);
  }

  lemma NextRequest(v: Vxi, s: Scpi, req: seq<byte>, rest: seq<byte>, incoming: Client, script: seq<ParserEvent>)
    requires WellFormed(req)
    requires Ok(v) && v.client.Client? && v.client.connected && v.client.rx == Record(req) + rest
    ensures Servable(v)
    ensures var r := Answer(s, req, v.client.id, script);
      var (w, t) := Turn(v, s, incoming, script);
      Ok(w) && t == r.scpi && TurnLeaves(v, w, r, rest)
  {
    RequestArrives(v, req, rest);
    StaleBytesUnseen(s, req, Incoming(v).buf[4..][|req|..], v.client.id, script);
    ServingTurn(v, s, incoming, script);
  }

  lemma ActMatches(v0: Vxi, q: Queue, v: Vxi, s: Scpi, m: Moment)
    requires v0.client.Client? && v0.client.connected && AllWellFormed(q.waiting) && Sendable(q.replies)
    requires Matches(v0, q, v, s) && (m.Arrive? ==> WellFormed(m.req))
    ensures Matches(v0, Next(q, v0.client.id, m), Act(v, s, m).0, Act(v, s, m).1)
  {
    if !q.closed {
      match m {
        case Arrive(req) => RecordsOneMore(q.waiting, req);
        case Go(script) =>
          if q.waiting == [] {
            IdleTurn(v, s, NoClient, script);
          } else {
            NextRequest(v, s, q.waiting[0], Records(q.waiting[1..]), NoClient, script);
            FramesOneMore(q.replies, Answer(q.scpi, q.waiting[0], v.client.id, script).reply);
          }
      }
    }
  }

  /**
   * Whenever whole requests arrive between the turns of the server, in any number at any time, it sends exactly
   * the replies the queue promises and holds exactly the requests that wait, up to the first DESTROY_LINK.
   */
  lemma {:induction false} ArrivalsAnswered(v: Vxi, s: Scpi, moments: seq<Moment>)
    requires Ok(v) && v.client.Client? && v.client.connected && v.client.rx == [] && WholeRequests(moments)
    ensures var q := Queued(s, v.client.id, moments);
      InOrder(q) && Matches(v, q, Follow(v, s, moments).0, Follow(v, s, moments).1)
    decreases |moments|
  {
    if moments == [] {
      assert v.client.(rx := Records([])) == v.client && v.sent + Frames([]) == v.sent;
    } else {
      var before, m := moments[..|moments| - 1], moments[|moments| - 1];
      ArrivalsAnswered(v, s, before);
      var q := Queued(s, v.client.id, before);
      var (w, t) := Follow(v, s, before);
      NextInOrder(q, v.client.id, m);
      ActMatches(v, q, w, t, m);
    }
  }
}
