/**
 * The raw server reads its socket byte by byte, at most one line a turn, and keeps an unfinished line in the
 * parser's input buffer. However the stream is cut up, the parser is given the same lines.
 */
module LineAssembly {
  import opened Bytes
  import opened Sockets
  import opened ScpiModel
  import opened ScpiTheorems

  /** The life of one raw connection: bytes arrive, and the main loop gives the server a turn. */
  datatype Turn = Arrive(data: seq<byte>) | Poll(script: seq<ParserEvent>)

  function Take(s: Scpi, t: Turn): Scpi {
    match t
    case Arrive(data) => s.(client := Deliver(s.client, data))
    case Poll(script) => Loop(s, NoClient, script)
  }

  function TakeAll(s: Scpi, turns: seq<Turn>): Scpi {
    if turns == [] then s else Take(TakeAll(s, turns[..|turns| - 1]), turns[|turns| - 1])
  }

  function Delivered(turns: seq<Turn>): seq<byte> {
    if turns == [] then []
    else
      var t := turns[|turns| - 1];
      Delivered(turns[..|turns| - 1]) + if t.Arrive? then t.data else []
  }

  predicate KeepsPeer(script: seq<ParserEvent>) {
    forall k | 0 <= k < |script| :: !script[k].PeerLost?
  }

  /** The connection is lost only by the server's own doing. */
  ghost predicate Steady(turns: seq<Turn>) {
    forall k | 0 <= k < |turns| && turns[k].Poll? :: KeepsPeer(turns[k].script)
  }

  /** A connection that has just been attached. */
  predicate Fresh(s: Scpi) {
    s.client.Client? && s.client.connected && s.client.rx == [] && s.input == [] && !s.external
  }

  /** The inputs the parser was given, oldest first. */
  function Lines(log: seq<Event>): seq<seq<byte>> {
    if log == [] then []
    else
      var e := log[|log| - 1];
      Lines(log[..|log| - 1]) + if e.Parsed? then [Values(e.line)] else []
  }

  function NewLines(s0: Scpi, s: Scpi): seq<seq<byte>>
    requires Lines(s0.log) <= Lines(s.log)
  {
    Lines(s.log)[|Lines(s0.log)|..]
  }

  function Flatten(lines: seq<seq<byte>>): seq<byte> {
    if lines == [] then [] else lines[0] + Flatten(lines[1..])
  }

  // A line ends in a line feed, octet 10, and fits if it has at most 256 octets.

  predicate NoNewline(b: seq<byte>) {
    forall k | 0 <= k < |b| :: b[k] != 10
  }

  predicate IsLine(l: seq<byte>) {
    0 < |l| <= 256 && l[|l| - 1] == 10 && NoNewline(l[..|l| - 1])
  }

  /** No line that fits the buffer starts here. */
  predicate NoLineYet(r: seq<byte>) {
    NoNewline(r[..Min(256, |r|)])
  }

  /**
   * The parser got exactly the lines the stream starts with; the unfinished rest is in the buffer and the
   * unread bytes are still in the socket. A connection that was stopped had sent 256 bytes without a
   * newline and then one more, and every line before those was parsed.
   */
  ghost predicate Assembled(s0: Scpi, s: Scpi, stream: seq<byte>) {
    && Lines(s0.log) <= Lines(s.log)
    && Account(NewLines(s0, s), s.client, Values(s.input), stream)
    && (s.client.Client? ==> !s.external)
  }

  ghost predicate Account(lines: seq<seq<byte>>, client: Client, input: seq<byte>, stream: seq<byte>) {
    && AllLines(lines)
    && if client.Client? then
         && client.connected
         && |input| <= INPUT_BUFFER_LENGTH && NoNewline(input)
         && stream == Flatten(lines) + (input + client.rx)
       else
         && Flatten(lines) <= stream
         && var left := stream[|Flatten(lines)|..];
         |left| > INPUT_BUFFER_LENGTH && NoLineYet(left)
  }

  lemma {:induction false} TakeBytesSplits(input: seq<Cell>, rx: seq<byte>, origin: Origin)
    requires |input| <= INPUT_BUFFER_LENGTH && NoNewline(Values(input))
    ensures var all := Values(input) + rx;
      match TakeBytes(input, rx, origin)
      case Partial(i) => Values(i) == all && |i| <= INPUT_BUFFER_LENGTH && NoNewline(Values(i))
      case Line(i, rest) => Values(i) + rest == all && IsLine(Values(i))
      case Overflow(_) => |all| > INPUT_BUFFER_LENGTH && NoLineYet(all)
    decreases |rx|
  {
    var all := Values(input) + rx;
    if rx == [] {
      assert all == Values(input);
    } else if |input| >= INPUT_BUFFER_LENGTH {
      assert all[..INPUT_BUFFER_LENGTH] == Values(input);
    } else {
      var more := input + [Cell(rx[0], origin)];
      assert Values(more) == Values(input) + [rx[0]];
      assert Values(more) + rx[1..] == all;
      if rx[0] == NEWLINE {
        assert Values(more)[..|more| - 1] == Values(input);
      } else {
        TakeBytesSplits(more, rx[1..], origin);
      }
    }
  }

  lemma NoteLines(s: Scpi, e: Event)
    ensures Lines(Note(s, e).log) == Lines(s.log) + if e.Parsed? then [Values(e.line)] else []
  {
    assert Note(s, e).log[..|s.log|] == s.log;
  }

  /** Nothing was parsed from `s` to `t`, and the client is the same. */
  predicate SameLines(s: Scpi, t: Scpi) {
    Lines(t.log) == Lines(s.log) && t.client == s.client
  }

  lemma NoteSameLines(s: Scpi, e: Event)
    requires !e.Parsed?
    ensures SameLines(s, Note(s, e))
  {
    NoteLines(s, e);
  }

  lemma HandleKeepsLines(s: Scpi, origin: Origin, e: ParserEvent)
    requires !e.PeerLost?
    ensures SameLines(s, Handle(s, origin, e))
  {
    if e.Emit? {
      var cells := Tag(e.text, origin);
      NoteSameLines(s.(ready := false, output := s.output + cells), Appended(cells));
    } else {
      NoteSameLines(s, Flushed);
      if !s.external && s.client.Client? {
        NoteSameLines(Note(s.(output := []), Flushed), SentRaw(s.client.id, s.output));
        NoteSameLines(s.(output := []), Flushed);
      }
    }
  }

  lemma {:induction false} ReactKeepsLines(s: Scpi, origin: Origin, script: seq<ParserEvent>)
    requires KeepsPeer(script)
    ensures SameLines(s, React(s, origin, script))
    decreases |script|
  {
    if script != [] {
      HandleKeepsLines(s, origin, script[0]);
      ReactKeepsLines(Handle(s, origin, script[0]), origin, script[1..]);
    }
  }

  lemma ParserInputLines(s: Scpi, origin: Origin, script: seq<ParserEvent>)
    requires KeepsPeer(script)
    ensures var t := ParserInput(s, origin, script);
      && Lines(t.log) == Lines(s.log) + [Values(s.input)]
      && t.client == s.client && t.input == [] && t.external == s.external
  {
    var u := Start(s, origin);
    NoteLines(s, Parsed(origin, s.input, s.client.Client?, s.linked));
    ReactKeepsLines(u, origin, script);
    ReactFrame(u, origin, script);
  }

  lemma {:induction false} FlattenOneMore(lines: seq<seq<byte>>, l: seq<byte>)
    ensures Flatten(lines + [l]) == Flatten(lines) + l
    decreases |lines|
  {
    if lines == [] {
      assert [l][1..] == [];
    } else {
      assert (lines + [l])[1..] == lines[1..] + [l];
      FlattenOneMore(lines[1..], l);
    }
  }

  lemma LineAccounted(lines: seq<seq<byte>>, client: Client, input: seq<byte>, l: seq<byte>, rest: seq<byte>,
                      stream: seq<byte>)
    requires client.Client? && Account(lines, client, input, stream)
    requires IsLine(l) && l + rest == input + client.rx
    ensures Account(lines + [l], client.(rx := rest), [], stream)
  {
    FlattenOneMore(lines, l);
    assert stream == Flatten(lines) + l + ([] + rest);
  }

  /** The turn that completes a line. */
  lemma LineAssembles(s0: Scpi, s: Scpi, stream: seq<byte>, script: seq<ParserEvent>, i: seq<Cell>, rest: seq<byte>)
    requires Assembled(s0, s, stream) && s.client.Client? && KeepsPeer(script)
    requires IsLine(Values(i)) && Values(i) + rest == Values(s.input) + s.client.rx
    ensures Assembled(s0, ParserInput(LineInput(s, i, rest), RawSession(s.client.id), script), stream)
  {
    var u, me := LineInput(s, i, rest), RawSession(s.client.id);
    ParserInputLines(u, me, script);
    var soFar, t := NewLines(s0, s), ParserInput(u, me, script);
    LineAccounted(soFar, s.client, Values(s.input), Values(i), rest, stream);
    assert NewLines(s0, t) == soFar + [Values(i)];
    assert Values(t.input) == [];
  }

  lemma PollAssembles(s0: Scpi, s: Scpi, stream: seq<byte>, script: seq<ParserEvent>)
    requires Assembled(s0, s, stream) && KeepsPeer(script)
    ensures Assembled(s0, Loop(s, NoClient, script), stream)
  {
    if s.client.Client? && s.client.rx != [] {
      var me := RawSession(s.client.id);
      TakeBytesSplits(s.input, s.client.rx, me);
      match TakeBytes(s.input, s.client.rx, me)
      case Partial(i) =>
        assert Values(i) + [] == Values(i);
      case Line(i, rest) =>
        LineAssembles(s0, s, stream, script, i, rest);
      case Overflow(_) =>
        assert stream[|Flatten(NewLines(s0, s))|..] == Values(s.input) + s.client.rx;
    }
  }

  lemma ArriveAssembles(s0: Scpi, s: Scpi, stream: seq<byte>, data: seq<byte>)
    requires Assembled(s0, s, stream)
    ensures Assembled(s0, Take(s, Arrive(data)), stream + data)
  {
    var done := Flatten(NewLines(s0, s));
    if s.client.Client? {
      assert done + (Values(s.input) + s.client.rx) + data == done + (Values(s.input) + (s.client.rx + data));
    } else {
      var left := stream[|done|..];
      assert (stream + data)[|done|..] == left + data;
      assert (left + data)[..INPUT_BUFFER_LENGTH] == left[..INPUT_BUFFER_LENGTH];
    }
  }

  /** For every stream and every way it is spread over turns. */
  lemma {:induction false} LinesAreAssembled(s0: Scpi, turns: seq<Turn>)
    requires Fresh(s0) && Steady(turns)
    ensures Assembled(s0, TakeAll(s0, turns), Delivered(turns))
    decreases |turns|
  {
    if turns == [] {
      assert NewLines(s0, s0) == [];
    } else {
      var before, t := turns[..|turns| - 1], turns[|turns| - 1];
      LinesAreAssembled(s0, before);
      var s := TakeAll(s0, before);
      match t {
        case Arrive(data) => ArriveAssembles(s0, s, Delivered(before), data);
        case Poll(script) =>
          assert Delivered(turns) == Delivered(before);
          PollAssembles(s0, s, Delivered(before), script);
      }
    }
  }

  ghost predicate AllLines(lines: seq<seq<byte>>) {
    forall l | l in lines :: IsLine(l)
  }

  /** A stream splits into complete lines and a rest in one way only. */
  lemma {:induction false} SplitIsUnique(l1: seq<seq<byte>>, r1: seq<byte>, l2: seq<seq<byte>>, r2: seq<byte>)
    requires Flatten(l1) + r1 == Flatten(l2) + r2 && AllLines(l1) && AllLines(l2)
    requires NoLineYet(r1) && NoLineYet(r2)
    ensures l1 == l2 && r1 == r2
    decreases |l1|
  {
    FirstApart(l1, r1);
    FirstApart(l2, r2);
    if l1 == [] && l2 != [] {
      LineStarts(l2[0], Flatten(l2[1..]) + r2, r1);
    } else if l1 != [] && l2 == [] {
      LineStarts(l1[0], Flatten(l1[1..]) + r1, r2);
    } else if l1 != [] && l2 != [] {
      SameFirstLine(l1[0], Flatten(l1[1..]) + r1, l2[0], Flatten(l2[1..]) + r2);
      SplitIsUnique(l1[1..], r1, l2[1..], r2);
    }
  }

  lemma FirstApart(lines: seq<seq<byte>>, r: seq<byte>)
    ensures Flatten(lines) + r == if lines == [] then r else lines[0] + (Flatten(lines[1..]) + r)
  {
  }

  lemma LineStarts(l: seq<byte>, tail: seq<byte>, r: seq<byte>)
    requires IsLine(l) && l + tail == r
    ensures !NoLineYet(r)
  {
    assert r[..Min(INPUT_BUFFER_LENGTH, |r|)][|l| - 1] == l[|l| - 1];
  }

  lemma NewlineIsLast(l: seq<byte>)
    requires IsLine(l)
    ensures forall k | 0 <= k < |l| :: l[k] == NEWLINE <==> k == |l| - 1
  {
    forall k | 0 <= k < |l| - 1 ensures l[k] != NEWLINE {
      assert l[..|l| - 1][k] == l[k];
    }
  }

  lemma SameFirstLine(a: seq<byte>, s: seq<byte>, b: seq<byte>, t: seq<byte>)
    requires IsLine(a) && IsLine(b) && a + s == b + t
    ensures a == b && s == t
  {
    var all := a + s;
    assert all[..|a|] == a && all[..|b|] == b;
    NewlineIsLast(a);
    NewlineIsLast(b);
    var k := Min(|a|, |b|) - 1;
    assert a[k] == all[k] == b[k];
    assert all[|a|..] == s && all[|b|..] == t;
  }

  /** What follows the complete lines of a stream that has been read as far as it goes. */
  ghost function Rest(s: Scpi, lines: seq<seq<byte>>, stream: seq<byte>): (r: seq<byte>)
    requires Account(lines, s.client, Values(s.input), stream) && AllRead(s)
    ensures Flatten(lines) + r == stream && NoLineYet(r)
    ensures if s.client.Client? then r == Values(s.input) && |r| <= INPUT_BUFFER_LENGTH else |r| > INPUT_BUFFER_LENGTH
  {
    if s.client.Client? then
      assert Values(s.input) + [] == Values(s.input);
      Values(s.input)
    else
      stream[|Flatten(lines)|..]
  }

  predicate AllRead(s: Scpi) {
    s.client.Client? ==> s.client.rx == []
  }

  /** The parser was given the same lines, and the unfinished rest is the same. */
  predicate EndAlike(s: Scpi, t: Scpi) {
    && Lines(s.log) == Lines(t.log)
    && s.client.Client? == t.client.Client?
    && (s.client.Client? ==> Values(s.input) == Values(t.input))
  }

  /** How the bytes were spread over turns makes no difference to what the parser was given. */
  lemma ChunkingIsInvisible(s0: Scpi, turns: seq<Turn>, other: seq<Turn>)
    requires Fresh(s0) && Steady(turns) && Steady(other) && Delivered(turns) == Delivered(other)
    requires AllRead(TakeAll(s0, turns)) && AllRead(TakeAll(s0, other))
    ensures EndAlike(TakeAll(s0, turns), TakeAll(s0, other))
  {
    var s, t, stream := TakeAll(s0, turns), TakeAll(s0, other), Delivered(turns);
    LinesAreAssembled(s0, turns);
    LinesAreAssembled(s0, other);
    var a, b := NewLines(s0, s), NewLines(s0, t);
    var ra, rb := Rest(s, a, stream), Rest(t, b, stream);
    SplitIsUnique(a, ra, b, rb);
    assert Lines(s.log) == Lines(s0.log) + a && Lines(t.log) == Lines(s0.log) + b;
  }

  /** Every turn that finds bytes consumes at least one, so as many turns as there are bytes read them all. */
  lemma {:induction false} PollsReadEverything(s: Scpi, scripts: seq<seq<ParserEvent>>)
    requires s.client.Client? && s.client.connected && !s.external
    requires |s.input| <= INPUT_BUFFER_LENGTH && NoNewline(Values(s.input))
    requires |scripts| >= |s.client.rx|
    requires forall k | 0 <= k < |scripts| :: KeepsPeer(scripts[k])
    ensures AllRead(Polls(s, scripts))
    decreases |scripts|
  {
    if scripts != [] {
      var t := Loop(s, NoClient, scripts[0]);
      if s.client.rx != [] {
        var me := RawSession(s.client.id);
        TakeBytesSplits(s.input, s.client.rx, me);
        match TakeBytes(s.input, s.client.rx, me)
        case Line(i, rest) =>
          ParserInputLines(LineInput(s, i, rest), me, scripts[0]);
          TakeBytesProgress(s.input, s.client.rx, me);
        case _ =>
      }
      if t.client.Client? {
        PollsReadEverything(t, scripts[1..]);
      } else {
        PollsStayStopped(t, scripts[1..]);
      }
    }
  }

  function Polls(s: Scpi, scripts: seq<seq<ParserEvent>>): Scpi
    decreases |scripts|
  {
    if scripts == [] then s else Polls(Loop(s, NoClient, scripts[0]), scripts[1..])
  }

  lemma {:induction false} PollsStayStopped(s: Scpi, scripts: seq<seq<ParserEvent>>)
    requires s.client.NoClient?
    ensures Polls(s, scripts).client.NoClient?
  {
    if scripts != [] {
      PollsStayStopped(Loop(s, NoClient, scripts[0]), scripts[1..]);
    }
  }

  lemma {:induction false} TakeBytesProgress(input: seq<Cell>, rx: seq<byte>, origin: Origin)
    requires rx != []
    ensures var t := TakeBytes(input, rx, origin); t.Line? ==> |t.rest| < |rx|
    decreases |rx|
  {
    if |rx| > 1 {
      TakeBytesProgress(input + [Cell(rx[0], origin)], rx[1..], origin);
    }
  }
}
