/** Requests in, replies out: what a VXI-11 client can rely on at the level of bytes. */
module VxiTheorems {
  import opened Options
  import opened Bytes
  import opened Sockets
  import opened ScpiModel
  import opened RpcPackets
  import opened CyclicPort
  import opened VxiModel

  // ----- A request does not see what an earlier one left in the buffer -----

  /** A request whose strings lie inside it and leave the terminator inside the buffer. */
  predicate WellFormed(req: seq<byte>) {
    && 40 <= |req| <= VXI_READ_SIZE - 4
    && (Calls(req, CREATE_LINK) ==>
          |req| >= 56 && 56 + WordAt(req, 13) <= |req| && 56 + WordAt(req, 13) < VXI_READ_SIZE - 4)
    && (Calls(req, DEV_WRITE) ==>
          && |req| >= 60 && 60 + WordAt(req, 14) <= |req|
          && 60 + |RightTrim(WriteData(req))| < VXI_READ_SIZE - 4)
  }

  /** A request with nothing but zeros behind it. */
  function Alone(req: seq<byte>): (packet: seq<byte>)
    requires |req| <= VXI_READ_SIZE - 4
    ensures |packet| == VXI_READ_SIZE - 4
  {
    req + Zeros(VXI_READ_SIZE - 4 - |req|)
  }

  lemma FitsWith(req: seq<byte>, stale: seq<byte>)
    requires WellFormed(req) && |req| + |stale| == VXI_READ_SIZE - 4
    ensures InnerFits(req + stale)
    ensures Calls(req, DEV_WRITE) ==> WriteData(req + stale) == WriteData(req)
  {
    WordInPrefix(req, stale, 3);
    WordInPrefix(req, stale, 5);
    if Calls(req, CREATE_LINK) {
      WordInPrefix(req, stale, 13);
    } else if Calls(req, DEV_WRITE) {
      WordInPrefix(req, stale, 14);
      assert WriteData(req + stale) == WriteData(req);
    }
  }

  /** What a request means, told from its own bytes alone. */
  function Answer(s: Scpi, req: seq<byte>, conn: nat, script: seq<ParserEvent>): (r: Served)
    requires WellFormed(req)
  {
    FitsWith(req, Zeros(VXI_READ_SIZE - 4 - |req|));
    Serve(s, Alone(req), conn, script)
  }

  /** Whatever an earlier request left behind in the buffer, it changes neither the effect nor the reply. */
  lemma StaleBytesUnseen(s: Scpi, req: seq<byte>, stale: seq<byte>, conn: nat, script: seq<ParserEvent>)
    requires WellFormed(req) && |req| + |stale| == VXI_READ_SIZE - 4
    ensures InnerFits(req + stale)
    ensures Serve(s, req + stale, conn, script) == Answer(s, req, conn, script)
  {
    var zeros := Zeros(VXI_READ_SIZE - 4 - |req|);
    FitsWith(req, stale);
    FitsWith(req, zeros);
    SameWord(req, stale, zeros, 0);
    SameWord(req, stale, zeros, 3);
    SameWord(req, stale, zeros, 5);
    if Calls(req, DEV_WRITE) {
      SameWord(req, stale, zeros, 14);
    }
    ServeSeesFields(s, req + stale, req + zeros, conn, script);
  }

  /** A handful of fields is all that is looked at. */
  lemma ServeSeesFields(s: Scpi, p: seq<byte>, q: seq<byte>, conn: nat, script: seq<ParserEvent>)
    requires InnerFits(p) && InnerFits(q)
    requires WordAt(p, 0) == WordAt(q, 0) && WordAt(p, 3) == WordAt(q, 3) && WordAt(p, 5) == WordAt(q, 5)
    requires Calls(p, DEV_WRITE) ==> WordAt(p, 14) == WordAt(q, 14) && WriteData(p) == WriteData(q)
    ensures Serve(s, p, conn, script) == Serve(s, q, conn, script)
  {
  }

  lemma SameWord(req: seq<byte>, a: seq<byte>, b: seq<byte>, k: nat)
    requires 4 * k + 4 <= |req|
    ensures WordAt(req + a, k) == WordAt(req, k) == WordAt(req + b, k)
  {
    WordInPrefix(req, a, k);
    WordInPrefix(req, b, k);
  }

  // What follows is the client's view, in the numbers of the protocol: program 0x607AF, procedures 10 to create a
  // link, 11 to write, 12 to read and 23 to destroy a link.

  /** The body words of the reply to a call that succeeded, and how long that reply is. */
  predicate BodyFor(req: seq<byte>, r: seq<byte>)
    requires WellFormed(req) && WordAt(req, 3) == 0x607AF
  {
    && |r| >= 28 && WordAt(r, 6) == 0
    && var procedure := WordAt(req, 5);
    if procedure == 10 then
      |r| == 40 && WordAt(r, 7) == 0 && WordAt(r, 8) == 0 && WordAt(r, 9) == 252
    else if procedure == 11 then
      |r| == 32 && |req| >= 60 && WordAt(r, 7) == WordAt(req, 14)
    else if procedure == 12 then
      |r| >= 36 && WordAt(r, 7) == 4 && |r| == 36 + WordAt(r, 8)
    else
      |r| == 28
  }

  /**
   * Every reply is an accepted one with the transaction id of its request, the status of the dispatch (0, or 1 for
   * an unknown program, 3 for an unknown procedure), and the body the procedure promises: link and receive size,
   * the length of the data as it was sent, or the length of the data that follows.
   */
  ghost predicate ReplyTo(req: seq<byte>, r: seq<byte>)
    requires WellFormed(req)
  {
    && |r| >= 24
    && WordAt(r, 0) == WordAt(req, 0) && WordAt(r, 1) == 1 && WordAt(r, 2) == 0
    && WordAt(r, 3) == 0 && WordAt(r, 4) == 0
    && WordAt(r, 5) == (
         if WordAt(req, 3) != 0x607AF then 1 else if WordAt(req, 5) in {10, 11, 12, 23} then 0 else 3)
    && if WordAt(r, 5) == 0 then BodyFor(req, r) else |r| == 24
  }

  /** The status and the body words a request calls for; a read reply is followed by `n` bytes of data. */
  function Called(req: seq<byte>, n: word): (fields: (word, seq<word>))
    requires WellFormed(req)
  {
    if WordAt(req, 3) != VXI_11_CORE then (PROG_UNAVAIL, [])
    else if WordAt(req, 5) == CREATE_LINK then (SUCCESS, [NO_ERROR, 0, 0, MAX_RECEIVE_SIZE])
    else if WordAt(req, 5) == DEV_WRITE then (SUCCESS, [NO_ERROR, WordAt(req, 14)])
    else if WordAt(req, 5) == DEV_READ then (SUCCESS, [NO_ERROR, REASON_END, n])
    else if WordAt(req, 5) == DESTROY_LINK then (SUCCESS, [NO_ERROR])
    else (PROC_UNAVAIL, [])
  }

  lemma CalledIsReply(req: seq<byte>, data: seq<byte>)
    requires WellFormed(req) && |data| <= READ_CHUNK && (data != [] ==> Calls(req, DEV_READ))
    ensures var (status, body) := Called(req, |data|); ReplyTo(req, Reply(WordAt(req, 0), status, body) + data)
  {
    var (status, body) := Called(req, |data|);
    ReplyFields(WordAt(req, 0), status, body, data);
  }

  lemma AnswerIsCalled(s: Scpi, req: seq<byte>, conn: nat, script: seq<ParserEvent>)
    requires WellFormed(req)
    ensures var data := if Calls(req, DEV_READ) then Values(Read(s, conn, READ_CHUNK).1) else [];
      var (status, body) := Called(req, |data|);
      Answer(s, req, conn, script).reply == Reply(WordAt(req, 0), status, body) + data
    ensures Answer(s, req, conn, script).close <==> Calls(req, DESTROY_LINK)
  {
    var zeros := Zeros(VXI_READ_SIZE - 4 - |req|);
    WordInPrefix(req, zeros, 0);
    WordInPrefix(req, zeros, 3);
    WordInPrefix(req, zeros, 5);
    if Calls(req, DEV_WRITE) {
      WordInPrefix(req, zeros, 14);
    }
    FitsWith(req, zeros);
    var r := Answer(s, req, conn, script).reply;
    assert r + [] == r;
  }

  lemma ReplyMatchesRequest(s: Scpi, req: seq<byte>, conn: nat, script: seq<ParserEvent>)
    requires WellFormed(req)
    ensures ReplyTo(req, Answer(s, req, conn, script).reply)
    ensures Answer(s, req, conn, script).close <==> Calls(req, DESTROY_LINK)
  {
    AnswerIsCalled(s, req, conn, script);
    CalledIsReply(req, if Calls(req, DEV_READ) then Values(Read(s, conn, READ_CHUNK).1) else []);
  }

  // ----- Request stream to reply stream -----

  /** Short enough for the length field of a record. */
  predicate Framable(reqs: seq<seq<byte>>) {
    forall k | 0 <= k < |reqs| :: |reqs[k]| < 0x8000_0000
  }

  function Records(reqs: seq<seq<byte>>): seq<byte>
    requires Framable(reqs)
  {
    if reqs == [] then [] else Record(reqs[0]) + Records(reqs[1..])
  }

  ghost predicate AllWellFormed(reqs: seq<seq<byte>>) {
    forall k | 0 <= k < |reqs| :: WellFormed(reqs[k])
  }

  datatype Session = Session(scpi: Scpi, replies: seq<seq<byte>>, closed: bool)

  /** The requests answered one after the other, each from its own bytes, up to the first DESTROY_LINK. */
  ghost function AnswerAll(s: Scpi, reqs: seq<seq<byte>>, conn: nat, scripts: seq<seq<ParserEvent>>): (a: Session)
    requires |scripts| == |reqs| && AllWellFormed(reqs)
    ensures |a.replies| <= |reqs| && (!a.closed ==> |a.replies| == |reqs|) && (a.closed ==> a.replies != [])
    ensures Sendable(a.replies)
    decreases |reqs|
  {
    if reqs == [] then
      Session(s, [], false)
    else
      var r := Answer(s, reqs[0], conn, scripts[0]);
      if r.close then
        Session(r.scpi, [r.reply], true)
      else
        var rest := AnswerAll(r.scpi, reqs[1..], conn, scripts[1..]);
        Session(rest.scpi, [r.reply] + rest.replies, rest.closed)
  }

  ghost predicate OneReplyEach(reqs: seq<seq<byte>>, a: Session)
    requires AllWellFormed(reqs)
  {
    && |a.replies| <= |reqs| && (!a.closed ==> |a.replies| == |reqs|)
    && (forall k | 0 <= k < |a.replies| :: AnsweredAt(reqs, a, k))
  }

  /** The reply at this place answers the request there; the session is closed by the last one exactly. */
  ghost predicate AnsweredAt(reqs: seq<seq<byte>>, a: Session, k: nat)
    requires AllWellFormed(reqs) && k < |reqs| && k < |a.replies|
  {
    && ReplyTo(reqs[k], a.replies[k])
    && (Calls(reqs[k], DESTROY_LINK) <==> a.closed && k == |a.replies| - 1)
  }

  /** Each reply answers the request at its place, and the session closes on the last one served. */
  lemma {:induction false} EveryRequestAnswered(s: Scpi, reqs: seq<seq<byte>>, conn: nat,
                                               scripts: seq<seq<ParserEvent>>)
    requires |scripts| == |reqs| && AllWellFormed(reqs)
    ensures OneReplyEach(reqs, AnswerAll(s, reqs, conn, scripts))
    decreases |reqs|
  {
    if reqs != [] {
      ReplyMatchesRequest(s, reqs[0], conn, scripts[0]);
      var r := Answer(s, reqs[0], conn, scripts[0]);
      if !r.close {
        EveryRequestAnswered(r.scpi, reqs[1..], conn, scripts[1..]);
        OneMoreEach(reqs, r.reply, AnswerAll(r.scpi, reqs[1..], conn, scripts[1..]),
                    AnswerAll(s, reqs, conn, scripts));
      }
    }
  }

  lemma OneMoreEach(reqs: seq<seq<byte>>, r: seq<byte>, rest: Session, a: Session)
    requires reqs != [] && AllWellFormed(reqs) && ReplyTo(reqs[0], r) && !Calls(reqs[0], DESTROY_LINK)
    requires OneReplyEach(reqs[1..], rest)
    requires a == Session(rest.scpi, [r] + rest.replies, rest.closed)
    requires rest.closed ==> rest.replies != []
    ensures OneReplyEach(reqs, a)
  {
    forall k | 0 <= k < |a.replies| ensures AnsweredAt(reqs, a, k) {
      if k > 0 {
        assert AnsweredAt(reqs[1..], rest, k - 1);
        assert reqs[k] == reqs[1..][k - 1] && a.replies[k] == rest.replies[k - 1];
      }
    }
  }

  ghost predicate Sendable(replies: seq<seq<byte>>) {
    forall k | 0 <= k < |replies| :: |replies[k]| <= 36 + READ_CHUNK
  }

  ghost function Frames(replies: seq<seq<byte>>): seq<seq<byte>>
    requires Sendable(replies)
  {
    if replies == [] then [] else [Frame(replies[0])] + Frames(replies[1..])
  }

  /** The server has gone from `v` to `w` by sending the replies of a session and reading its requests. */
  ghost predicate StreamServed(v: Vxi, w: Vxi, a: Session, tail: seq<byte>)
    requires v.client.Client? && Sendable(a.replies)
  {
    && w.sent == v.sent + Frames(a.replies)
    && if a.closed then w.client.NoClient? && w.closes == v.closes + 1
       else w.client == v.client.(rx := tail) && w.closes == v.closes
  }

  /** As many turns of the server as there are scripts; it stays idle if a request does not fit. */
  function Turns(v: Vxi, s: Scpi, scripts: seq<seq<ParserEvent>>): (Vxi, Scpi)
    requires Ok(v)
    decreases |scripts|
  {
    if scripts == [] || !Servable(v) then
      (v, s)
    else
      var (w, t) := Turn(v, s, NoClient, scripts[0]);
      Turns(w, t, scripts[1..])
  }

  /** The next request is read whole, in front of whatever the buffer held. */
  lemma RequestArrives(v: Vxi, req: seq<byte>, tail: seq<byte>)
    requires Ok(v) && v.client.Client? && v.client.connected && WellFormed(req) && v.client.rx == Record(req) + tail
    ensures Serving(v) && Incoming(v).rx == tail
    ensures Incoming(v).buf[4..] == req + Incoming(v).buf[4..][|req|..]
  {
    WholeRequestArrives(v, req, tail);
  }

  /** What a turn that serves leaves behind. */
  predicate TurnLeaves(v: Vxi, w: Vxi, r: Served, rest: seq<byte>)
    requires v.client.Client? && |r.reply| <= 36 + READ_CHUNK
  {
    && w.sent == v.sent + [Frame(r.reply)]
    && if r.close then w.client.NoClient? && w.closes == v.closes + 1
       else w.client == v.client.(rx := rest) && w.closes == v.closes
  }

  lemma ServingTurn(v: Vxi, s: Scpi, incoming: Client, script: seq<ParserEvent>)
    requires Ok(v) && Servable(v) && Serving(v)
    ensures var r := Serve(s, Incoming(v).buf[4..], v.client.id, script);
      var (w, t) := Turn(v, s, incoming, script);
      Ok(w) && t == r.scpi && TurnLeaves(v, w, r, Incoming(v).rx)
  {
    NextPrevInverse(v.port);
  }

  /** One turn takes exactly the next request off the stream and answers it. */
  lemma OneRequest(v: Vxi, s: Scpi, req: seq<byte>, tail: seq<byte>, script: seq<ParserEvent>,
                   more: seq<seq<ParserEvent>>) returns (w: Vxi)
    requires WellFormed(req)
    requires Ok(v) && v.client.Client? && v.client.connected && v.client.rx == Record(req) + tail
    ensures var r := Answer(s, req, v.client.id, script);
      Ok(w) && TurnLeaves(v, w, r, tail) && Turns(v, s, [script] + more) == Turns(w, r.scpi, more)
  {
    RequestArrives(v, req, tail);
    StaleBytesUnseen(s, req, Incoming(v).buf[4..][|req|..], v.client.id, script);
    ServingTurn(v, s, NoClient, script);
    w := Turn(v, s, NoClient, script).0;
    assert ([script] + more)[1..] == more;
  }

  /** As many turns as there are replies in `a` answer them and leave the server accordingly. */
  ghost predicate AnsweredBy(v: Vxi, s: Scpi, a: Session, scripts: seq<seq<ParserEvent>>, tail: seq<byte>)
    requires Ok(v) && v.client.Client? && Sendable(a.replies) && |a.replies| <= |scripts|
  {
    var (w, t) := Turns(v, s, scripts[..|a.replies|]);
    t == a.scpi && StreamServed(v, w, a, tail)
  }

  /**
   * For every concatenation of framed requests the server recovers exactly those requests in order, up to
   * the first DESTROY_LINK, and sends one reply frame for each. Bytes behind them stay in the stream.
   */
  lemma {:induction false} RequestsAnswered(v: Vxi, s: Scpi, reqs: seq<seq<byte>>, tail: seq<byte>,
                                           scripts: seq<seq<ParserEvent>>)
    requires |scripts| == |reqs| && AllWellFormed(reqs)
    requires Ok(v) && v.client.Client? && v.client.connected && v.client.rx == Records(reqs) + tail
    ensures AnsweredBy(v, s, AnswerAll(s, reqs, v.client.id, scripts), scripts, tail)
    decreases |reqs|
  {
    if reqs == [] {
      assert Records(reqs) + tail == tail;
    } else {
      var rest := Records(reqs[1..]) + tail;
      assert v.client.rx == Record(reqs[0]) + rest;
      var r := Answer(s, reqs[0], v.client.id, scripts[0]);
      if r.close {
        var w := OneRequest(v, s, reqs[0], rest, scripts[0], []);
        LastAnswered(v, s, w, r, AnswerAll(s, reqs, v.client.id, scripts), scripts, tail);
      } else {
        var b := AnswerAll(r.scpi, reqs[1..], v.client.id, scripts[1..]);
        var w := OneRequest(v, s, reqs[0], rest, scripts[0], scripts[1..][..|b.replies|]);
        RequestsAnswered(w, r.scpi, reqs[1..], tail, scripts[1..]);
        OneMoreAnswered(v, s, w, r, AnswerAll(s, reqs, v.client.id, scripts), b, scripts, tail);
      }
    }
  }

  lemma LastAnswered(v: Vxi, s: Scpi, w: Vxi, r: Served, a: Session, scripts: seq<seq<ParserEvent>>, tail: seq<byte>)
    requires Ok(v) && Ok(w) && v.client.Client? && w.client.NoClient? && |r.reply| <= 36 + READ_CHUNK
    requires w.closes == v.closes + 1 && w.sent == v.sent + [Frame(r.reply)]
    requires scripts != [] && Sendable(a.replies) && a == Session(r.scpi, [r.reply], true)
    requires Turns(v, s, [scripts[0]] + []) == Turns(w, r.scpi, [])
    ensures AnsweredBy(v, s, a, scripts, tail)
  {
    assert scripts[..1] == [scripts[0]] + [] && [r.reply][1..] == [];
  }

  lemma OneMoreAnswered(v: Vxi, s: Scpi, w: Vxi, r: Served, a: Session, b: Session,
                        scripts: seq<seq<ParserEvent>>, tail: seq<byte>)
    requires Ok(v) && Ok(w) && v.client.Client? && w.client.Client? && |r.reply| <= 36 + READ_CHUNK
    requires w.client == v.client.(rx := w.client.rx) && w.closes == v.closes && w.sent == v.sent + [Frame(r.reply)]
    requires Sendable(a.replies) && Sendable(b.replies)
    requires a == Session(b.scpi, [r.reply] + b.replies, b.closed) && |a.replies| <= |scripts|
    requires AnsweredBy(w, r.scpi, b, scripts[1..], tail)
    requires var more := scripts[1..][..|b.replies|]; Turns(v, s, [scripts[0]] + more) == Turns(w, r.scpi, more)
    ensures AnsweredBy(v, s, a, scripts, tail)
  {
    var more := scripts[1..][..|b.replies|];
    assert scripts[..|a.replies|] == [scripts[0]] + more;
    assert a.replies[1..] == b.replies;
    OneMoreServed(v, w, Turns(w, r.scpi, more).0, a, b, tail);
  }

  lemma OneMoreServed(v: Vxi, w: Vxi, u: Vxi, a: Session, b: Session, tail: seq<byte>)
    requires v.client.Client? && w.client.Client?
    requires w.client == v.client.(rx := w.client.rx) && w.closes == v.closes
    requires Sendable(a.replies) && a.replies != [] && a.replies[1..] == b.replies && a.closed == b.closed
    requires w.sent == v.sent + [Frame(a.replies[0])]
    requires Sendable(b.replies) && StreamServed(w, u, b, tail)
    ensures StreamServed(v, u, a, tail)
  {
    assert v.sent + [Frame(a.replies[0])] + Frames(b.replies) == v.sent + Frames(a.replies);
  }

  // ----- Read replies -----

  datatype ReadReply = ReadReply(xid: word, error: word, reason: word, data: seq<byte>)

  /** The far end of a device_read call (section B.6 of VXI-11 revision 1.0). */
  function DecodeReadReply(frame: seq<byte>): Option<ReadReply> {
    match OpenRecord(frame)
    case None => None
    case Some(p) =>
      if |p| < 36 || |p| % 4 != 0 || WordAt(p, 1) != REPLY || WordAt(p, 2) != MSG_ACCEPTED || WordAt(p, 5) != SUCCESS
         || 36 + WordAt(p, 8) > |p|
      then None
      else Some(ReadReply(WordAt(p, 0), WordAt(p, 6), WordAt(p, 7), p[36..36 + WordAt(p, 8)]))
  }

  lemma ReadAnswers(s: Scpi, req: seq<byte>, conn: nat, script: seq<ParserEvent>)
    requires WellFormed(req) && Calls(req, DEV_READ)
    ensures var (t, cells) := Read(s, conn, READ_CHUNK);
      Answer(s, req, conn, script)
        == Served(t, Reply(WordAt(req, 0), SUCCESS, [NO_ERROR, REASON_END, |cells|]) + Values(cells), false)
  {
    var zeros := Zeros(VXI_READ_SIZE - 4 - |req|);
    WordInPrefix(req, zeros, 0);
    WordInPrefix(req, zeros, 3);
    WordInPrefix(req, zeros, 5);
  }

  /** Decoding the frame sent for a read gives back exactly what was read, and the frame fits the send buffer. */
  lemma ReadReplyRoundTrip(s: Scpi, req: seq<byte>, conn: nat, script: seq<ParserEvent>)
    requires WellFormed(req) && Calls(req, DEV_READ) && |s.output| <= 216
    ensures var data := if s.external && s.ready then Values(s.output) else [];
      var r := Answer(s, req, conn, script);
      && DecodeReadReply(Frame(r.reply)) == Some(ReadReply(WordAt(req, 0), NO_ERROR, REASON_END, data))
      && |Frame(r.reply)| <= VXI_SEND_SIZE
      && r.scpi.output == if s.external && s.ready then [] else s.output
  {
    ReadAnswers(s, req, conn, script);
    ReadReplyDecodes(WordAt(req, 0), Values(Read(s, conn, READ_CHUNK).1));
  }

  /**
   * The read handler takes a reply of up to 256 bytes. Of those that are delivered, exactly the ones of at most
   * 216 bytes make a frame the send buffer has room for.
   */
  lemma ReadReplyFitsIff(s: Scpi, req: seq<byte>, conn: nat, script: seq<ParserEvent>)
    requires WellFormed(req) && Calls(req, DEV_READ) && Readable(s, READ_CHUNK)
    ensures |Frame(Answer(s, req, conn, script).reply)| <= VXI_SEND_SIZE <==> |s.output| <= 216
  {
    ReadAnswers(s, req, conn, script);
  }

  lemma ReadReplyDecodes(xid: word, data: seq<byte>)
    requires |data| <= 216
    ensures var frame := Frame(Reply(xid, SUCCESS, [NO_ERROR, REASON_END, |data|]) + data);
      && DecodeReadReply(frame) == Some(ReadReply(xid, NO_ERROR, REASON_END, data))
      && |frame| <= VXI_SEND_SIZE
  {
    var head := Reply(xid, SUCCESS, [NO_ERROR, REASON_END, |data|]);
    var pad := Zeros(Padding(|head + data|));
    ReplyFields(xid, SUCCESS, [NO_ERROR, REASON_END, |data|], data + pad);
    OpensAsReadReply(head, data, pad, xid);
  }

  lemma OpensAsReadReply(head: seq<byte>, data: seq<byte>, pad: seq<byte>, xid: word)
    requires |head| == 36 && |data| + |pad| <= 216 && (|data| + |pad|) % 4 == 0
    requires var r := head + (data + pad);
      && WordAt(r, 0) == xid && WordAt(r, 1) == REPLY && WordAt(r, 2) == MSG_ACCEPTED && WordAt(r, 5) == SUCCESS
      && WordAt(r, 6) == NO_ERROR && WordAt(r, 7) == REASON_END && WordAt(r, 8) == |data|
    ensures DecodeReadReply(Record(head + data + pad)) == Some(ReadReply(xid, NO_ERROR, REASON_END, data))
  {
    var p := head + data + pad;
    assert p == head + (data + pad);
    OpenRecordInverse(p);
    assert p[36..36 + |data|] == data;
  }

  /** CREATE_LINK takes control and leaves both buffers and the ready flag as they are. */
  lemma CreateAnswers(s: Scpi, create: seq<byte>, conn: nat)
    requires WellFormed(create) && Calls(create, CREATE_LINK)
    ensures Answer(s, create, conn, []).scpi == s.(external := true, linked := true)
  {
    var zeros := Zeros(VXI_READ_SIZE - 4 - |create|);
    WordInPrefix(create, zeros, 3);
    WordInPrefix(create, zeros, 5);
  }

  /** A query whose reply is emitted and flushed. */
  lemma QueryAnswers(s: Scpi, query: seq<byte>, conn: nat, text: seq<byte>)
    requires WellFormed(query) && Calls(query, DEV_WRITE) && Accepts(RightTrim(WriteData(query)))
    ensures var t := Answer(s, query, conn, [Emit(text), EndOfReply]).scpi;
      t.output == s.output + Tag(text, VxiSession(conn)) && t.ready && t.external
  {
    var zeros := Zeros(VXI_READ_SIZE - 4 - |query|);
    FitsWith(query, zeros);
    WordInPrefix(query, zeros, 3);
    WordInPrefix(query, zeros, 5);
    var me := VxiSession(conn);
    var script := [Emit(text), EndOfReply];
    var t := Start(WriteInput(s, me, RightTrim(WriteData(query))), me);
    var u := Append(t, Tag(text, me));
    assert script[1..] == [EndOfReply] && script[1..][1..] == [];
    assert React(t, me, script) == React(u, me, script[1..]);
    assert React(u, me, script[1..]) == React(Flush(u), me, script[1..][1..]);
  }

  /** What a client finds in the first read after its CREATE_LINK. */
  lemma FirstReadSeesLeftover(s: Scpi, create: seq<byte>, read: seq<byte>, conn: nat)
    requires WellFormed(create) && Calls(create, CREATE_LINK) && WellFormed(read) && Calls(read, DEV_READ)
    requires |s.output| <= 216
    ensures var linked := Answer(s, create, conn, []).scpi;
      var r := Answer(linked, read, conn, []).reply;
      DecodeReadReply(Frame(r))
        == Some(ReadReply(WordAt(read, 0), NO_ERROR, REASON_END, if s.ready then Values(s.output) else []))
  {
    CreateAnswers(s, create, conn);
    ReadReplyRoundTrip(Answer(s, create, conn, []).scpi, read, conn, []);
  }

  /**
   * A reply nobody fetched outlives its session: the next VXI-11 session is given it, because a new link
   * clears neither the output buffer nor the flag that says a reply is ready.
   */
  lemma UnfetchedReplyGoesToNextSession(s: Scpi, query: seq<byte>, text: seq<byte>, create: seq<byte>,
                                        read: seq<byte>, first: nat, second: nat)
    requires s.output == [] && |text| <= 216
    requires WellFormed(query) && Calls(query, DEV_WRITE) && Accepts(RightTrim(WriteData(query)))
    requires WellFormed(create) && Calls(create, CREATE_LINK) && WellFormed(read) && Calls(read, DEV_READ)
    ensures var abandoned := Answer(s, query, first, [Emit(text), EndOfReply]).scpi.(linked := false);
      var linked := Answer(abandoned, create, second, []).scpi;
      DecodeReadReply(Frame(Answer(linked, read, second, []).reply))
        == Some(ReadReply(WordAt(read, 0), NO_ERROR, REASON_END, text))
  {
    QueryAnswers(s, query, first, text);
    assert Values([] + Tag(text, VxiSession(first))) == text;
    FirstReadSeesLeftover(Answer(s, query, first, [Emit(text), EndOfReply]).scpi.(linked := false), create, read,
                          second);
  }

  /** A finished reply is delivered whole, as long as the output buffer could hold it. */
  lemma FinishedReplyIsRead(s: Scpi, req: seq<byte>, conn: nat, script: seq<ParserEvent>)
    requires WellFormed(req) && Calls(req, DEV_READ) && s.external && s.ready && |s.output| <= WRITE_BUFFER_LENGTH
    ensures var r := Answer(s, req, conn, script);
      |r.reply| >= 36 && r.reply[36..] == Values(s.output) && r.scpi.output == []
  {
    ReadAnswers(s, req, conn, script);
  }

  // ----- What a command becomes -----

  /** The octets C counts as white space. */
  predicate White(data: seq<byte>) {
    forall i | 0 <= i < |data| :: data[i] in {9, 10, 11, 12, 13, 32}
  }

  /** A command without white space at its end. */
  predicate Bare(cmd: seq<byte>) {
    cmd == [] || cmd[|cmd| - 1] !in {9, 10, 11, 12, 13, 32}
  }

  /** Trailing white space is what is taken off, and all of it. */
  lemma {:induction false} TrimTakesOffWhite(cmd: seq<byte>, end: seq<byte>)
    requires Bare(cmd) && White(end)
    ensures RightTrim(cmd + end) == cmd
    decreases |end|
  {
    if end == [] {
      assert cmd + end == cmd;
    } else {
      assert (cmd + end)[..|cmd + end| - 1] == cmd + end[..|end| - 1];
      assert (cmd + end)[|cmd + end| - 1] == end[|end| - 1];
      TrimTakesOffWhite(cmd, end[..|end| - 1]);
    }
  }

  /** The string of a request is terminated right behind it, and no other byte of the packet changes. */
  lemma TerminatedInPlace(packet: seq<byte>)
    requires InnerFits(packet) && (Calls(packet, CREATE_LINK) || Calls(packet, DEV_WRITE))
    ensures var at := if Calls(packet, CREATE_LINK) then 56 + WordAt(packet, 13)
                      else 60 + |RightTrim(WriteData(packet))|;
      && at < |packet| && Terminated(packet)[at] == 0
      && forall i | 0 <= i < |packet| && i != at :: Terminated(packet)[i] == packet[i]
  {
  }

  // ----- The advertised write size -----

  /** A device_write request with this much data, padded as section 4.10 of RFC 4506 demands. */
  function WriteRequest(xid: word, link: word, data: seq<byte>): seq<byte>
    requires |data| < 0x1000_0000
  {
    Words([xid, 0, 2, 0x607AF, 1, 11, 0, 0, 0, 0, link, 0, 0, 8, |data|]) + data
      + Zeros(Padding(|data|))
  }

  /**
   * A write request is consumed whole exactly up to 192 bytes of data; of a longer one a part stays behind in
   * the stream.
   */
  lemma WriteReceivedIffSmall(v: Vxi, xid: word, link: word, data: seq<byte>, tail: seq<byte>)
    requires Ok(v) && v.client.Client? && |data| <= MAX_RECEIVE_SIZE
    requires v.client.rx == Record(WriteRequest(xid, link, data)) + tail
    ensures Incoming(v).rx == tail <==> |data| <= 192
  {
    RecordConsumedIffFits(v.buf, WriteRequest(xid, link, data), tail);
  }

  /**
   * CREATE_LINK tells the client it may send 252 bytes of data in one write. Within that promise a write is
   * received whole, with room for the terminator behind the trimmed command, exactly if it has at most 192
   * bytes of data and at most 191 in front of trailing white space.
   */
  lemma WriteServedIffSmall(v: Vxi, xid: word, link: word, data: seq<byte>, tail: seq<byte>)
    requires Ok(v) && v.client.Client? && v.client.connected && |data| <= MAX_RECEIVE_SIZE
    requires v.client.rx == Record(WriteRequest(xid, link, data)) + tail
    ensures Incoming(v).rx == tail && Servable(v) <==> |data| <= 192 && |RightTrim(data)| < 192
    ensures |data| <= 192 ==> Serving(v)
  {
    var req := WriteRequest(xid, link, data);
    WriteReceivedIffSmall(v, xid, link, data, tail);
    if |data| <= 192 {
      WholeRequestArrives(v, req, tail);
      WriteFitsIffRoom(xid, link, data, Incoming(v).buf[4..][|req|..]);
    }
  }

  /** Whatever a request is, if it fits it is read whole, in front of what the buffer held. */
  lemma WholeRequestArrives(v: Vxi, req: seq<byte>, tail: seq<byte>)
    requires Ok(v) && v.client.Client? && v.client.connected && 4 < |req| <= VXI_READ_SIZE - 4
    requires v.client.rx == Record(req) + tail
    ensures Serving(v) && Incoming(v).rx == tail
    ensures Incoming(v).buf[4..] == req + Incoming(v).buf[4..][|req|..]
  {
    GetRecord(v.buf, req, tail);
  }

  lemma WriteRequestFields(xid: word, link: word, data: seq<byte>, stale: seq<byte>)
    requires |data| < 0x1000_0000
    ensures var packet := WriteRequest(xid, link, data) + stale;
      && WordAt(packet, 3) == VXI_11_CORE && WordAt(packet, 5) == DEV_WRITE && WordAt(packet, 14) == |data|
      && packet[60..60 + |data|] == data
  {
    var ws: seq<word> := [xid, 0, 2, 0x607AF, 1, 11, 0, 0, 0, 0, link, 0, 0, 8, |data|];
    var behind := data + Zeros(Padding(|data|)) + stale;
    assert WriteRequest(xid, link, data) + stale == Words(ws) + behind;
    WordsAt(ws, behind, 3);
    WordsAt(ws, behind, 5);
    WordsAt(ws, behind, 14);
  }

  lemma WriteFitsIffRoom(xid: word, link: word, data: seq<byte>, stale: seq<byte>)
    requires |data| <= 192 && |WriteRequest(xid, link, data)| + |stale| == VXI_READ_SIZE - 4
    ensures InnerFits(WriteRequest(xid, link, data) + stale) <==> |RightTrim(data)| < 192
  {
    WriteRequestFields(xid, link, data, stale);
  }

  /** 192 bytes that do not end in white space are received whole, and leave no room for the terminator. */
  lemma FullWriteHasNoRoom(v: Vxi, xid: word, link: word, data: seq<byte>, tail: seq<byte>)
    requires Ok(v) && v.client.Client? && v.client.connected && |data| == 192 && !IsSpace(data[191])
    requires v.client.rx == Record(WriteRequest(xid, link, data)) + tail
    ensures Incoming(v).rx == tail && Serving(v) && !Servable(v)
  {
    WriteReceivedIffSmall(v, xid, link, data, tail);
    WriteServedIffSmall(v, xid, link, data, tail);
    assert RightTrim(data) == data;
  }

  /** A create_link request with a device name. */
  function CreateRequest(xid: word, client: word, name: seq<byte>): seq<byte>
    requires |name| < 0x1000_0000
  {
    Words([xid, 0, 2, 0x607AF, 1, 10, 0, 0, 0, 0, client, 0, 0, |name|]) + name + Zeros(Padding(|name|))
  }

  lemma CreateRequestFields(xid: word, client: word, name: seq<byte>, stale: seq<byte>)
    requires |name| < 0x1000_0000
    ensures var packet := CreateRequest(xid, client, name) + stale;
      WordAt(packet, 3) == VXI_11_CORE && WordAt(packet, 5) == CREATE_LINK && WordAt(packet, 13) == |name|
  {
    var ws: seq<word> := [xid, 0, 2, 0x607AF, 1, 10, 0, 0, 0, 0, client, 0, 0, |name|];
    var behind := name + Zeros(Padding(|name|)) + stale;
    assert CreateRequest(xid, client, name) + stale == Words(ws) + behind;
    WordsAt(ws, behind, 3);
    WordsAt(ws, behind, 5);
    WordsAt(ws, behind, 13);
  }

  /** A device name is received whole, with room for its terminator, exactly if it has at most 195 bytes. */
  lemma CreateServedIffSmall(v: Vxi, xid: word, client: word, name: seq<byte>, tail: seq<byte>)
    requires Ok(v) && v.client.Client? && v.client.connected && |name| < 0x1000_0000
    requires v.client.rx == Record(CreateRequest(xid, client, name)) + tail
    ensures Incoming(v).rx == tail && Servable(v) <==> |name| <= 195
  {
    var req := CreateRequest(xid, client, name);
    RecordConsumedIffFits(v.buf, req, tail);
    if |req| <= VXI_READ_SIZE - 4 {
      WholeRequestArrives(v, req, tail);
      CreateRequestFields(xid, client, name, Incoming(v).buf[4..][|req|..]);
    }
  }
}
