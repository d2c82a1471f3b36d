/**
 * One serial Modbus master serves local register calls and requests forwarded from Modbus TCP. The RTU
 * library is the environment: for each transaction it is issued, it takes some polls and then either brings
 * an answer or gives up in silence.
 */
module SerialBus {
  import opened Bytes

  datatype Outcome = Answer(data: seq<byte>) | Silence

  datatype Transaction = Transaction(forwarded: bool, ticks: nat, outcome: Outcome)

  /** Where a TCP request came from (section 3.1.3 of the MODBUS Messaging on TCP/IP Implementation Guide). */
  datatype Source = Source(transactionId: nat, ip: word, slaveId: byte)

  datatype Accepted = Accepted(source: Source, outcome: Outcome)

  /** What the engine took: a request from TCP or one of the firmware's own calls, with what becomes of it. */
  datatype Issued = Forwarded(source: Source, outcome: Outcome) | Own(outcome: Outcome)

  datatype TcpResponse = TcpResponse(source: Source, data: seq<byte>)

  datatype TcpError = TcpError(slaveId: byte, function_: byte)

  datatype Verdict = Success | Passthrough | GeneralFailure | DeviceFailed

  datatype Bus = Bus(
    outstanding: seq<Transaction>,    // what the RTU engine is working on
    issued: seq<Issued>,              // bookkeeping: everything the engine ever took
    callback: bool,                   // is the raw callback installed?
    source: Source,                   // transaction_id, ip and slave_id of the bridge
    accepted: seq<Accepted>,          // bookkeeping: forwarded requests the engine took, with what becomes of them
    responses: seq<TcpResponse>,      // bookkeeping: everything sent as a response to TCP
    errors: seq<TcpError>,            // bookkeeping: error responses to TCP
    locals: seq<Outcome>,             // bookkeeping: local calls issued, with what becomes of them
    delivered: seq<seq<byte>>)        // bookkeeping: answers handed to local calls

  const NoSource: Source := Source(0, 0, 0)

  const Quiet: Bus := Bus([], [], false, NoSource, [], [], [], [], [])

  /** The raw callback: takes itself out, and sends an answer from the RTU side on to TCP. */
  function RtuCallback(b: Bus, data: seq<byte>, toServer: bool): (Bus, Verdict) {
    var c := b.(callback := false);
    if toServer then
      (c, Passthrough)
    else
      (c.(responses := b.responses + [TcpResponse(b.source, data)], source := NoSource), Success)
  }

  /** An answer goes to the callback if there is one, whoever asked. */
  function Resolve(b: Bus, t: Transaction): Bus {
    match t.outcome
    case Silence => b
    case Answer(data) =>
      if b.callback then RtuCallback(b, data, false).0
      else if t.forwarded then b
      else b.(delivered := b.delivered + [data])
  }

  /** One modbus.task(). */
  function Poll(b: Bus): Bus {
    if b.outstanding == [] then
      b
    else
      var t := b.outstanding[0];
      if t.ticks > 0 then
        b.(outstanding := [t.(ticks := t.ticks - 1)] + b.outstanding[1..])
      else
        Resolve(b.(outstanding := b.outstanding[1..]), t)
  }

  /** How many polls are left until the engine is idle. */
  function Work(ts: seq<Transaction>): nat {
    if ts == [] then 0 else ts[0].ticks + 1 + Work(ts[1..])
  }

  lemma PollWorks(b: Bus)
    requires b.outstanding != []
    ensures Work(Poll(b).outstanding) == Work(b.outstanding) - 1
  {
    var t := b.outstanding[0];
    if t.ticks > 0 {
      var ts := [t.(ticks := t.ticks - 1)] + b.outstanding[1..];
      assert ts[1..] == b.outstanding[1..];
    }
  }

  /** The bridge waits as long as it takes. */
  function Drain(b: Bus): (c: Bus)
    ensures c.outstanding == []
    decreases Work(b.outstanding)
  {
    if b.outstanding == [] then b else PollWorks(b); Drain(Poll(b))
  }

  /** A local call waits for at most `patience` further polls after the first one. */
  function Wait(b: Bus, patience: nat): (Bus, bool)
    decreases patience
  {
    if b.outstanding == [] then (b, true)
    else if patience == 0 then (Poll(b), false)
    else Wait(Poll(b), patience - 1)
  }

  function Polls(b: Bus, n: nat): Bus {
    if n == 0 then b else Poll(Polls(b, n - 1))
  }

  ghost predicate BusyFor(b: Bus, n: nat) {
    forall k: nat | k < n :: Polls(b, k).outstanding != []
  }

  /** Patience spent on polls that did not free the line. */
  lemma {:induction false} WaitAfter(b: Bus, n: nat, m: nat)
    requires BusyFor(b, n)
    ensures Wait(b, n + m) == Wait(Polls(b, n), m)
    decreases n
  {
    if n > 0 {
      WaitAfter(b, n - 1, m + 1);
    }
  }

  lemma BusyLonger(b: Bus, n: nat)
    requires BusyFor(b, n) && Polls(b, n).outstanding != []
    ensures BusyFor(b, n + 1) && Polls(b, n + 1) == Poll(Polls(b, n))
  {
  }

  /** After that many polls in vain the line is found idle, or the patience is at an end. */
  lemma WaitEnds(b: Bus, n: nat)
    requires BusyFor(b, n)
    ensures Wait(b, n) == if Polls(b, n).outstanding == [] then (Polls(b, n), true) else (Polls(b, n + 1), false)
  {
    WaitAfter(b, n, 0);
  }

  function Issue(b: Bus, t: Transaction): Bus {
    var entry := if t.forwarded then Forwarded(b.source, t.outcome) else Own(t.outcome);
    b.(outstanding := b.outstanding + [t], issued := b.issued + [entry])
  }

  /** A request arrives over TCP; `taken` says whether the engine accepts the raw request. */
  function TcpRequest(b: Bus, from: Source, data: seq<byte>, taken: bool, ticks: nat, outcome: Outcome): (Bus, Verdict)
    requires data != []
  {
    var c := Drain(b);
    if !taken then
      (c.(errors := c.errors + [TcpError(from.slaveId, data[0])]), DeviceFailed)
    else
      (Issue(c.(source := from), Transaction(true, ticks, outcome)).(callback := true,
                                                    accepted := c.accepted + [Accepted(from, outcome)]), Success)
  }

  /** Any local register call: wait for the line, issue, wait for the answer. */
  function LocalCall(b: Bus, before: nat, taken: bool, ticks: nat, outcome: Outcome, after: nat): (Bus, bool) {
    var (c, free) := Wait(b, before);
    if !free || !taken then (c, false)
    else Wait(Issue(c, Transaction(false, ticks, outcome)).(locals := c.locals + [outcome]), after)
  }

  // ----- Runs -----

  datatype Action =
    | Task
    | Forward(from: Source, data: seq<byte>, taken: bool, ticks: nat, outcome: Outcome)
    | Local(before: nat, taken: bool, ticks: nat, outcome: Outcome, after: nat)

  function Step(b: Bus, a: Action): Bus {
    match a
    case Task => Poll(b)
    case Forward(from, data, taken, ticks, outcome) =>
      if data == [] then b else TcpRequest(b, from, data, taken, ticks, outcome).0
    case Local(before, taken, ticks, outcome, after) => LocalCall(b, before, taken, ticks, outcome, after).0
  }

  function After(run: seq<Action>): Bus {
    if run == [] then Quiet else Step(After(run[..|run| - 1]), run[|run| - 1])
  }

  // ----- One transaction at a time -----

  ghost predicate Single(b: Bus) {
    |b.outstanding| <= 1
  }

  /** Nothing is ever issued while something is outstanding: over every run, at most one transaction is. */
  lemma {:induction false} OneTransactionAtATime(run: seq<Action>)
    ensures |After(run).outstanding| <= 1
    decreases |run|
  {
    if run != [] {
      OneTransactionAtATime(run[..|run| - 1]);
      var b, a := After(run[..|run| - 1]), run[|run| - 1];
      if a.Local? {
        WaitSingle(b, a.before);
        var (c, free) := Wait(b, a.before);
        WaitSingle(Issue(c, Transaction(false, a.ticks, a.outcome)).(locals := c.locals + [a.outcome]), a.after);
      }
    }
  }

  lemma {:induction false} WaitSingle(b: Bus, patience: nat)
    ensures Single(b) ==> Single(Wait(b, patience).0)
    ensures Wait(b, patience).1 ==> Wait(b, patience).0.outstanding == []
    decreases patience
  {
    if b.outstanding != [] && patience > 0 {
      WaitSingle(Poll(b), patience - 1);
    }
  }

  // ----- Pairing of requests and responses -----

  ghost predicate ForwardPending(b: Bus) {
    b.outstanding != [] && b.outstanding[0].forwarded
  }

  ghost predicate LocalPending(b: Bus) {
    b.outstanding != [] && !b.outstanding[0].forwarded
  }

  /** The answers among the outcomes, in order. */
  function Answers(outcomes: seq<Outcome>): seq<seq<byte>> {
    if outcomes == [] then []
    else
      var o := outcomes[|outcomes| - 1];
      Answers(outcomes[..|outcomes| - 1]) + if o.Answer? then [o.data] else []
  }

  ghost predicate Paired(b: Bus) {
    && Single(b)
    && (b.callback <==> ForwardPending(b))
    && (ForwardPending(b) ==>
          && b.accepted != [] && b.accepted[|b.accepted| - 1] == Accepted(b.source, b.outstanding[0].outcome)
          && b.outstanding[0].outcome.Answer?)
    && |b.accepted| == |b.responses| + (if ForwardPending(b) then 1 else 0)
    && (forall k | 0 <= k < |b.responses| ::
          b.accepted[k].outcome.Answer?
          && b.responses[k] == TcpResponse(b.accepted[k].source, b.accepted[k].outcome.data))
    && (LocalPending(b) ==> b.locals != [] && b.locals[|b.locals| - 1] == b.outstanding[0].outcome)
    && b.delivered == Answers(if LocalPending(b) then b.locals[..|b.locals| - 1] else b.locals)
  }

  lemma PollPaired(b: Bus)
    requires Paired(b)
    ensures Paired(Poll(b))
  {
  }

  lemma {:induction false} DrainPaired(b: Bus)
    requires Paired(b)
    ensures Paired(Drain(b))
    decreases Work(b.outstanding)
  {
    if b.outstanding != [] {
      PollWorks(b);
      PollPaired(b);
      DrainPaired(Poll(b));
    }
  }

  lemma {:induction false} WaitPaired(b: Bus, patience: nat)
    requires Paired(b)
    ensures Paired(Wait(b, patience).0)
    decreases patience
  {
    if b.outstanding != [] {
      PollPaired(b);
      if patience > 0 {
        WaitPaired(Poll(b), patience - 1);
      }
    }
  }

  /** The proviso: the power supply answers every forwarded request, so the callback fires for each. */
  predicate Answered(a: Action) {
    a.Forward? ==> a.outcome.Answer?
  }

  lemma StepPaired(b: Bus, a: Action)
    requires Paired(b) && Answered(a)
    ensures Paired(Step(b, a))
  {
    match a {
      case Task => PollPaired(b);
      case Forward(from, data, taken, ticks, outcome) => DrainPaired(b);
      case Local(before, taken, ticks, outcome, after) =>
        WaitPaired(b, before);
        WaitSingle(b, before);
        var (c, free) := Wait(b, before);
        if free && taken {
          var d := Issue(c, Transaction(false, ticks, outcome)).(locals := c.locals + [outcome]);
          assert d.locals[..|d.locals| - 1] == c.locals;
          WaitPaired(d, after);
        }
    }
  }

  /**
   * Over every run in which the callback fires for each accepted request: the k-th response to TCP carries
   * the transaction, address and slave of the k-th accepted request and the answer to it; the callback is
   * installed exactly while a forwarded request is outstanding; and every answer to a local call, no other,
   * is handed to a local call, in order.
   */
  lemma {:induction false} BridgePairing(run: seq<Action>)
    requires forall k | 0 <= k < |run| :: Answered(run[k])
    ensures Paired(After(run))
    decreases |run|
  {
    if run != [] {
      BridgePairing(run[..|run| - 1]);
      StepPaired(After(run[..|run| - 1]), run[|run| - 1]);
    }
  }

  // ----- What the TCP side was told -----

  /** The requests the engine took, with where they came from. */
  function Taken(run: seq<Action>): seq<Accepted> {
    if run == [] then []
    else
      var a := run[|run| - 1];
      Taken(run[..|run| - 1])
        + if a.Forward? && a.data != [] && a.taken then [Accepted(a.from, a.outcome)] else []
  }

  /** Slave and function code of each request the engine did not take. */
  function Refused(run: seq<Action>): seq<TcpError> {
    if run == [] then []
    else
      var a := run[|run| - 1];
      Refused(run[..|run| - 1])
        + if a.Forward? && a.data != [] && !a.taken then [TcpError(a.from.slaveId, a.data[0])] else []
  }

  /** The forwarded requests in a history. */
  function Requests(h: seq<Issued>): seq<Accepted> {
    if h == [] then []
    else
      var t := h[|h| - 1];
      Requests(h[..|h| - 1]) + if t.Forwarded? then [Accepted(t.source, t.outcome)] else []
  }

  /** The books on the TCP side are the same. */
  predicate SameBooks(b: Bus, c: Bus) {
    c.accepted == b.accepted && c.errors == b.errors && c.issued == b.issued
  }

  lemma {:induction false} DrainBooks(b: Bus)
    ensures SameBooks(b, Drain(b))
    decreases Work(b.outstanding)
  {
    if b.outstanding != [] {
      PollWorks(b);
      DrainBooks(Poll(b));
    }
  }

  lemma {:induction false} WaitBooks(b: Bus, patience: nat)
    ensures SameBooks(b, Wait(b, patience).0)
    decreases patience
  {
    if b.outstanding != [] && patience > 0 {
      WaitBooks(Poll(b), patience - 1);
    }
  }

  lemma RequestsOneMore(h: seq<Issued>, t: Issued)
    ensures Requests(h + [t]) == Requests(h) + if t.Forwarded? then [Accepted(t.source, t.outcome)] else []
  {
    assert (h + [t])[..|h|] == h;
  }

  lemma StepBooks(b: Bus, a: Action)
    requires Requests(b.issued) == b.accepted
    ensures var c := Step(b, a);
      && Requests(c.issued) == c.accepted
      && c.accepted == b.accepted
           + (if a.Forward? && a.data != [] && a.taken then [Accepted(a.from, a.outcome)] else [])
      && c.errors == b.errors
           + (if a.Forward? && a.data != [] && !a.taken then [TcpError(a.from.slaveId, a.data[0])] else [])
  {
    match a {
      case Task =>
      case Forward(from, data, taken, ticks, outcome) =>
        DrainBooks(b);
        RequestsOneMore(b.issued, Forwarded(from, outcome));
      case Local(before, taken, ticks, outcome, after) =>
        WaitBooks(b, before);
        var c := Wait(b, before).0;
        RequestsOneMore(c.issued, Own(outcome));
        WaitBooks(Issue(c, Transaction(false, ticks, outcome)).(locals := c.locals + [outcome]), after);
    }
  }

  /**
   * Over every run: the requests on the line are, in order, those the engine took, each under its own source, and
   * the error responses are, in order, slave and function code of those it did not take.
   */
  lemma {:induction false} RequestsTakenOrRefused(run: seq<Action>)
    ensures After(run).accepted == Taken(run) == Requests(After(run).issued)
    ensures After(run).errors == Refused(run)
    decreases |run|
  {
    if run != [] {
      RequestsTakenOrRefused(run[..|run| - 1]);
      StepBooks(After(run[..|run| - 1]), run[|run| - 1]);
    }
  }

  /** What each side is told: success exactly for a request that was taken, passthrough exactly towards the server. */
  lemma VerdictsTell(b: Bus, from: Source, data: seq<byte>, taken: bool, ticks: nat, outcome: Outcome, toServer: bool)
    requires data != []
    ensures TcpRequest(b, from, data, taken, ticks, outcome).1 == if taken then Success else DeviceFailed
    ensures var (c, verdict) := RtuCallback(b, data, toServer);
      && !c.callback
      && if toServer then verdict == Passthrough && c.responses == b.responses && c.source == b.source
         else verdict == Success && c.responses == b.responses + [TcpResponse(b.source, data)] && c.source == Source(0, 0, 0)
  {
  }

  // ----- Without the proviso -----

  /** A forwarded request was left unanswered, and so was everything issued since. */
  predicate LeftBehind(h: seq<Issued>) {
    h != [] && h[|h| - 1].outcome.Silence? && (h[|h| - 1].Forwarded? || LeftBehind(h[..|h| - 1]))
  }

  /** Where the last forwarded request came from. */
  function LastSource(h: seq<Issued>): Source {
    if h == [] then NoSource
    else if h[|h| - 1].Forwarded? then h[|h| - 1].source
    else LastSource(h[..|h| - 1])
  }

  /** What should have gone out to TCP, told from the history of the line alone. */
  function ToTcp(h: seq<Issued>): seq<TcpResponse> {
    if h == [] then []
    else
      var before, t := h[..|h| - 1], h[|h| - 1];
      ToTcp(before) + if t.outcome.Answer? && (t.Forwarded? || LeftBehind(before))
                      then [TcpResponse(LastSource(h), t.outcome.data)] else []
  }

  /** And what to local calls. */
  function ToLocal(h: seq<Issued>): seq<seq<byte>> {
    if h == [] then []
    else
      var before, t := h[..|h| - 1], h[|h| - 1];
      ToLocal(before) + if t.outcome.Answer? && t.Own? && !LeftBehind(before) then [t.outcome.data] else []
  }

  /** Everything the engine is done with. */
  function Finished(b: Bus): seq<Issued>
    requires |b.outstanding| <= |b.issued|
  {
    b.issued[..|b.issued| - |b.outstanding|]
  }

  /**
   * The callback is installed exactly while a forwarded request is outstanding or one was left behind, and every
   * answer went where that sends it.
   */
  ghost predicate Routed(b: Bus) {
    && Single(b) && |b.outstanding| <= |b.issued|
    && (b.outstanding != [] ==>
          var last := b.issued[|b.issued| - 1];
          last.outcome == b.outstanding[0].outcome && (last.Forwarded? <==> b.outstanding[0].forwarded))
    && (b.callback <==> ForwardPending(b) || LeftBehind(Finished(b)))
    && (b.callback ==> b.source == LastSource(b.issued))
    && b.responses == ToTcp(Finished(b)) && b.delivered == ToLocal(Finished(b))
  }

  /** The request at `k` came from TCP, and neither it nor anything issued since was answered. */
  predicate SilentFrom(h: seq<Issued>, k: nat) {
    k < |h| && h[k].Forwarded? && forall i | k <= i < |h| :: h[i].outcome.Silence?
  }

  lemma {:induction false} LeftBehindAt(h: seq<Issued>)
    ensures LeftBehind(h) <==> exists k: nat :: SilentFrom(h, k)
    decreases |h|
  {
    if h != [] {
      var before, t := h[..|h| - 1], h[|h| - 1];
      LeftBehindAt(before);
      if k: nat :| SilentFrom(before, k) && t.outcome.Silence? {
        assert SilentFrom(h, k);
      }
      if t.Forwarded? && t.outcome.Silence? {
        assert SilentFrom(h, |h| - 1);
      }
      if k: nat :| SilentFrom(h, k) && k < |h| - 1 {
        assert SilentFrom(before, k);
      }
    }
  }

  /** One more transaction is finished. */
  lemma HistoryOneMore(h: seq<Issued>, t: Issued)
    ensures LeftBehind(h + [t]) <==> t.outcome.Silence? && (t.Forwarded? || LeftBehind(h))
    ensures ToTcp(h + [t]) == ToTcp(h) + if t.outcome.Answer? && (t.Forwarded? || LeftBehind(h))
                                         then [TcpResponse(LastSource(h + [t]), t.outcome.data)] else []
    ensures ToLocal(h + [t])
         == ToLocal(h) + if t.outcome.Answer? && t.Own? && !LeftBehind(h) then [t.outcome.data] else []
  {
    assert (h + [t])[..|h + [t]| - 1] == h;
  }

  /** The engine is done with its only transaction. */
  lemma ResolveRouted(b: Bus)
    requires Routed(b) && b.outstanding != []
    ensures Routed(Resolve(b.(outstanding := []), b.outstanding[0]))
  {
    var before, t := b.issued[..|b.issued| - 1], b.issued[|b.issued| - 1];
    assert b.issued == before + [t] && Finished(b) == before;
    HistoryOneMore(before, t);
    if t.outcome.Silence? {
      SilentRouted(b);
    } else {
      AnswerRouted(b);
    }
  }

  lemma SilentRouted(b: Bus)
    requires Routed(b) && b.outstanding != [] && b.outstanding[0].outcome.Silence?
    requires LeftBehind(b.issued) <==> b.outstanding[0].forwarded || LeftBehind(Finished(b))
    requires ToTcp(b.issued) == ToTcp(Finished(b)) && ToLocal(b.issued) == ToLocal(Finished(b))
    ensures Routed(b.(outstanding := []))
  {
    assert Finished(b.(outstanding := [])) == b.issued;
  }

  lemma AnswerRouted(b: Bus)
    requires Routed(b) && b.outstanding != [] && b.outstanding[0].outcome.Answer?
    requires !LeftBehind(b.issued)
    requires var forwarded, data := b.outstanding[0].forwarded, b.outstanding[0].outcome.data;
      var toTcp := forwarded || LeftBehind(Finished(b));
      && ToTcp(b.issued) == ToTcp(Finished(b)) + (if toTcp then [TcpResponse(LastSource(b.issued), data)] else [])
      && ToLocal(b.issued) == ToLocal(Finished(b)) + (if toTcp then [] else [data])
    ensures Routed(Resolve(b.(outstanding := []), b.outstanding[0]))
  {
    assert Finished(b.(outstanding := [])) == b.issued;
    assert Finished(Resolve(b.(outstanding := []), b.outstanding[0])) == b.issued;
  }

  lemma PollRouted(b: Bus)
    requires Routed(b)
    ensures Routed(Poll(b))
  {
    if b.outstanding != [] {
      if b.outstanding[0].ticks == 0 {
        ResolveRouted(b);
        assert b.outstanding[1..] == [];
      } else {
        assert Finished(Poll(b)) == Finished(b);
      }
    }
  }

  lemma {:induction false} DrainRouted(b: Bus)
    requires Routed(b)
    ensures Routed(Drain(b))
    decreases Work(b.outstanding)
  {
    if b.outstanding != [] {
      PollWorks(b);
      PollRouted(b);
      DrainRouted(Poll(b));
    }
  }

  lemma {:induction false} WaitRouted(b: Bus, patience: nat)
    requires Routed(b)
    ensures Routed(Wait(b, patience).0)
    decreases patience
  {
    if b.outstanding != [] {
      PollRouted(b);
      if patience > 0 {
        WaitRouted(Poll(b), patience - 1);
      }
    }
  }

  /** A transaction issued on an idle line; a forwarded one installs the callback. */
  lemma IssueRouted(b: Bus, from: Source, t: Transaction)
    requires Routed(b) && b.outstanding == []
    ensures Routed(if t.forwarded then Issue(b.(source := from), t).(callback := true) else Issue(b, t))
  {
    var entry := if t.forwarded then Forwarded(from, t.outcome) else Own(t.outcome);
    assert (b.issued + [entry])[..|b.issued|] == b.issued;
    assert Finished(b) == b.issued;
  }

  /** Bookkeeping the routing does not look at. */
  lemma SameRouted(b: Bus, c: Bus)
    requires Routed(b) && c == b.(accepted := c.accepted, errors := c.errors, locals := c.locals)
    ensures Routed(c)
  {
    assert Finished(c) == Finished(b);
  }

  lemma ForwardRouted(b: Bus, from: Source, data: seq<byte>, taken: bool, ticks: nat, outcome: Outcome)
    requires Routed(b) && data != []
    ensures Routed(TcpRequest(b, from, data, taken, ticks, outcome).0)
  {
    var c, t := Drain(b), Transaction(true, ticks, outcome);
    DrainRouted(b);
    IssueRouted(c, from, t);
    var issued := Issue(c.(source := from), t).(callback := true);
    SameRouted(if taken then issued else c, TcpRequest(b, from, data, taken, ticks, outcome).0);
  }

  lemma LocalRouted(b: Bus, before: nat, taken: bool, ticks: nat, outcome: Outcome, after: nat)
    requires Routed(b)
    ensures Routed(LocalCall(b, before, taken, ticks, outcome, after).0)
  {
    WaitRouted(b, before);
    WaitSingle(b, before);
    var (c, free) := Wait(b, before);
    if free && taken {
      var t := Transaction(false, ticks, outcome);
      var d := Issue(c, t).(locals := c.locals + [outcome]);
      IssueRouted(c, NoSource, t);
      SameRouted(Issue(c, t), d);
      WaitRouted(d, after);
    }
  }

  lemma StepRouted(b: Bus, a: Action)
    requires Routed(b)
    ensures Routed(Step(b, a))
  {
    match a {
      case Task => PollRouted(b);
      case Forward(from, data, taken, ticks, outcome) =>
        if data != [] {
          ForwardRouted(b, from, data, taken, ticks, outcome);
        }
      case Local(before, taken, ticks, outcome, after) => LocalRouted(b, before, taken, ticks, outcome, after);
    }
  }

  /** Over every run, whatever is answered and whatever is not. */
  lemma {:induction false} EveryAnswerIsRouted(run: seq<Action>)
    ensures Routed(After(run))
    decreases |run|
  {
    if run != [] {
      EveryAnswerIsRouted(run[..|run| - 1]);
      StepRouted(After(run[..|run| - 1]), run[|run| - 1]);
    }
  }

  lemma {:induction false} PollsRun(b: Bus, t: Transaction, patience: nat)
    requires b.outstanding == [t] && patience >= t.ticks
    ensures Wait(b, patience + 1) == (Resolve(b.(outstanding := []), t), true)
    decreases t.ticks
  {
    if t.ticks == 0 {
      assert b.outstanding[1..] == [];
      assert Poll(b) == Resolve(b.(outstanding := []), t);
    } else {
      var u := t.(ticks := t.ticks - 1);
      assert Poll(b) == b.(outstanding := [u]);
      PollsRun(Poll(b), u, patience - 1);
    }
  }

  /**
   * On an idle line, the answer to a local call reaches its caller exactly when no callback is installed.
   * Otherwise it is sent to TCP under the bridge's last source, and the caller is told all the same that the
   * call has succeeded.
   */
  lemma LocalAnswerGoesWhere(b: Bus, before: nat, ticks: nat, data: seq<byte>, after: nat)
    requires b.outstanding == [] && after > ticks
    ensures var (c, ok) := LocalCall(b, before, true, ticks, Answer(data), after);
      && ok
      && c.delivered == (if b.callback then b.delivered else b.delivered + [data])
      && c.responses == (if b.callback then b.responses + [TcpResponse(b.source, data)] else b.responses)
  {
    var t := Transaction(false, ticks, Answer(data));
    var c := Issue(b, t).(locals := b.locals + [Answer(data)]);
    PollsRun(c, t, after - 1);
  }

  /**
   * After every run that ends on an idle line: the next local answer reaches its caller exactly if no forwarded
   * request was left unanswered, or something was answered since. Otherwise it goes out to TCP as the response
   * to that request.
   */
  lemma NextLocalAnswer(run: seq<Action>, before: nat, ticks: nat, data: seq<byte>, after: nat)
    requires After(run).outstanding == [] && after > ticks
    ensures var b := After(run);
      var (c, ok) := LocalCall(b, before, true, ticks, Answer(data), after);
      && ok
      && c.delivered == (if LeftBehind(b.issued) then b.delivered else b.delivered + [data])
      && c.responses == b.responses + (if LeftBehind(b.issued) then [TcpResponse(LastSource(b.issued), data)] else [])
  {
    var b := After(run);
    EveryAnswerIsRouted(run);
    assert Finished(b) == b.issued;
    LocalAnswerGoesWhere(b, before, ticks, data, after);
  }

  /**
   * A forwarded request the power supply does not answer leaves the callback behind: the answer to the next
   * local call goes out as the response to that request.
   */
  lemma SilenceMisroutesNextAnswer(b: Bus, from: Source, request: seq<byte>, ticks: nat, before: nat, wait: nat,
                                   data: seq<byte>, after: nat)
    requires b.outstanding == [] && request != [] && before > ticks && after > wait
    ensures var c := TcpRequest(b, from, request, true, ticks, Silence).0;
      var d := LocalCall(c, before, true, wait, Answer(data), after).0;
      && d.responses == b.responses + [TcpResponse(from, data)]
      && d.delivered == b.delivered
  {
    var c := TcpRequest(b, from, request, true, ticks, Silence).0;
    var t := Transaction(true, ticks, Silence);
    assert c.outstanding == [t];
    PollsRun(c, t, before - 1);
    var idle := c.(outstanding := []);
    assert Wait(c, before) == (idle, true);
    LocalAnswerGoesWhere(idle, before, wait, data, after);
  }
}
