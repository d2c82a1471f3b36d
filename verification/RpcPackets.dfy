/**
 * Record marking (section 11 of RFC 5531), accepted replies (section 9 of RFC 5531) and the fixed packet
 * buffers they are read into and sent from.
 */
module RpcPackets {
  import opened Options
  import opened Bytes
  import opened Sockets

  const REPLY: word := 1
  const MSG_ACCEPTED: word := 0

  const SUCCESS: word := 0
  const PROG_UNAVAIL: word := 1
  const PROC_UNAVAIL: word := 3
  const GARBAGE_ARGS: word := 4

  const VXI_READ_SIZE: nat := 256
  const VXI_SEND_SIZE: nat := 256
  const UDP_READ_SIZE: nat := 64
  const UDP_SEND_SIZE: nat := 32
  const TCP_READ_SIZE: nat := 64
  const TCP_SEND_SIZE: nat := 32

  const LAST_FRAGMENT: word := 0x8000_0000

  // ----- Receiving -----

  function Overlay(buf: seq<byte>, at: nat, data: seq<byte>): (r: seq<byte>)
    requires at + |data| <= |buf|
    ensures |r| == |buf|
  {
    buf[..at] + data + buf[at + |data|..]
  }

  datatype Received = Received(buf: seq<byte>, rx: seq<byte>, len: word)

  /** The length field of a record whose first bytes are at hand. */
  function ReadPrefix(buf: seq<byte>, rx: seq<byte>): (r: seq<byte>)
    requires |buf| >= 4
    ensures |r| == |buf|
  {
    Overlay(PutWord(buf, 0, 0), 0, rx[..Min(4, |rx|)])
  }

  /**
   * One record read into a buffer over what an earlier record left there. A record of 1 to 4 bytes is
   * announced but its body is not read, and a record longer than the buffer is read only in part.
   */
  function GetPacket(buf: seq<byte>, rx: seq<byte>): (g: Received)
    requires 8 < |buf| < 0x8000_0000
    ensures |g.buf| == |buf|
  {
    var b := ReadPrefix(buf, rx);
    var rest := rx[Min(4, |rx|)..];
    var len := WordAt(b, 0) % LAST_FRAGMENT;
    if len > 4 then
      var n := Min(len, |buf| - 4);
      var taken := Min(n, |rest|);
      Received(Overlay(b, 4, rest[..taken]), rest[taken..], n)
    else
      Received(b, rest, len)
  }

  /** A single-fragment record around a payload. */
  function Record(payload: seq<byte>): (r: seq<byte>)
    requires |payload| < 0x8000_0000
  {
    BigEndian(LAST_FRAGMENT + |payload|) + payload
  }

  /** A record that fits the buffer is recovered whole and the stream is left at the next record. */
  lemma GetRecord(buf: seq<byte>, payload: seq<byte>, tail: seq<byte>)
    requires 8 < |buf| < 0x8000_0000 && 4 < |payload| <= |buf| - 4
    ensures var g := GetPacket(buf, Record(payload) + tail);
      g.len == |payload| && g.rx == tail && g.buf[4..4 + |payload|] == payload
  {
    var rx := Record(payload) + tail;
    PrefixOfRecord(buf, payload, tail);
    var rest := rx[4..];
    assert rest == payload + tail;
    assert rest[..|payload|] == payload && rest[|payload|..] == tail;
  }

  lemma PrefixOfRecord(buf: seq<byte>, payload: seq<byte>, tail: seq<byte>)
    requires |buf| >= 4 && |payload| < 0x8000_0000
    ensures WordAt(ReadPrefix(buf, Record(payload) + tail), 0) % LAST_FRAGMENT == |payload|
  {
    var rx, w := Record(payload) + tail, LAST_FRAGMENT + |payload|;
    assert rx[..4] == BigEndian(w);
    var b := ReadPrefix(buf, rx);
    assert b[0..4] == BigEndian(w);
    BigEndianInverse(w, b[0..4]);
  }

  /** For a payload the length field can announce, nothing of it stays behind exactly when the buffer has room. */
  lemma RecordConsumedIffFits(buf: seq<byte>, payload: seq<byte>, tail: seq<byte>)
    requires 8 < |buf| < 0x8000_0000 && 4 < |payload| < 0x8000_0000
    ensures GetPacket(buf, Record(payload) + tail).rx == tail <==> |payload| <= |buf| - 4
  {
    PrefixOfRecord(buf, payload, tail);
    var rx := Record(payload) + tail;
    assert rx[4..] == payload + tail;
    if |payload| <= |buf| - 4 {
      GetRecord(buf, payload, tail);
    } else {
      assert |GetPacket(buf, rx).rx| == |payload| - (|buf| - 4) + |tail|;
    }
  }

  /** With nothing at hand there is no record. */
  lemma NothingAtHand(buf: seq<byte>)
    requires 8 < |buf| < 0x8000_0000
    ensures GetPacket(buf, []).len == 0 && GetPacket(buf, []).rx == []
  {
    PutWordFrame(buf, 0, 0);
    assert ReadPrefix(buf, []) == PutWord(buf, 0, 0);
  }

  /** A record of 1 to 4 bytes is announced, but its body stays in the stream. */
  lemma TinyRecordStays(buf: seq<byte>, payload: seq<byte>, tail: seq<byte>)
    requires 8 < |buf| < 0x8000_0000 && 0 < |payload| <= 4
    ensures var g := GetPacket(buf, Record(payload) + tail); g.len == |payload| && g.rx == payload + tail
  {
    PrefixOfRecord(buf, payload, tail);
    assert (Record(payload) + tail)[4..] == payload + tail;
  }

  predicate Recovers(g: Received, payload: seq<byte>) {
    g.len == |payload| && 4 + |payload| <= |g.buf| && g.buf[4..4 + |payload|] == payload
  }

  /** What lies behind the bytes at hand stays what it was. */
  lemma UnreadUntouched(buf: seq<byte>, rx: seq<byte>, i: nat)
    requires 8 < |buf| < 0x8000_0000 && |rx| <= i && 4 <= i < |buf|
    ensures GetPacket(buf, rx).buf[i] == buf[i]
  {
    PutWordFrame(buf, 0, 0);
    var b := ReadPrefix(buf, rx);
    assert b[i] == buf[i];
    var rest := rx[Min(4, |rx|)..];
    assert rest == [] || 4 + |rest| <= i;
  }

  /** The buffer that keeps a record from being recovered: its last byte is another one. */
  lemma PartNotRecovered(payload: seq<byte>, n: nat, buf: seq<byte>)
    requires 8 < |buf| < 0x8000_0000 && 4 < |payload| <= |buf| - 4 && n < 4 + |payload|
    requires buf[3 + |payload|] != payload[|payload| - 1]
    ensures !Recovers(GetPacket(buf, Record(payload)[..n]), payload)
  {
    var g := GetPacket(buf, Record(payload)[..n]);
    UnreadUntouched(buf, Record(payload)[..n], 3 + |payload|);
    assert g.buf[4..4 + |payload|][|payload| - 1] == buf[3 + |payload|];
  }

  /** With only the first `n` bytes of its record at hand, the payload is recovered whatever the buffer held. */
  ghost predicate RecoveredFrom(payload: seq<byte>, n: nat, size: nat)
    requires 8 < size < 0x8000_0000 && |payload| < 0x8000_0000 && n <= 4 + |payload|
  {
    var rx := Record(payload)[..n];
    forall buf: seq<byte> {:trigger GetPacket(buf, rx)} | |buf| == size :: Recovers(GetPacket(buf, rx), payload)
  }

  lemma WholeRecovered(payload: seq<byte>, size: nat)
    requires 8 < size < 0x8000_0000 && 4 < |payload| <= size - 4
    ensures RecoveredFrom(payload, 4 + |payload|, size)
  {
    var rx := Record(payload)[..4 + |payload|];
    assert rx == Record(payload) + [];
    forall buf: seq<byte> | |buf| == size ensures Recovers(GetPacket(buf, rx), payload) {
      GetRecord(buf, payload, []);
    }
  }

  /** A record is recovered exactly if all of it is at hand: the rest is not waited for. */
  lemma RecordReadIffWhole(payload: seq<byte>, n: nat, size: nat)
    requires 8 < size < 0x8000_0000 && 4 < |payload| <= size - 4 && n <= 4 + |payload|
    ensures RecoveredFrom(payload, n, size) <==> n == 4 + |payload|
  {
    if n == 4 + |payload| {
      WholeRecovered(payload, size);
    } else {
      var other: byte := if payload[|payload| - 1] == 0 then 1 else 0;
      var buf: seq<byte> := Zeros(size)[3 + |payload| := other];
      PartNotRecovered(payload, n, buf);
    }
  }

  // ----- Sending -----

  /** How many zero bytes follow a packet of this length. */
  function Padding(len: nat): nat {
    if len % 4 == 0 then 0 else 4 - len % 4
  }

  function Zeros(n: nat): (z: seq<byte>)
    ensures |z| == n && forall i | 0 <= i < n :: z[i] == 0
  {
    seq(n, i => 0)
  }

  /** What goes out on the wire for one packet. */
  function Frame(packet: seq<byte>): seq<byte>
    requires |packet| < 0x7FFF_FF00
  {
    Record(packet + Zeros(Padding(|packet|)))
  }

  /** The padding reaches a multiple of four, and no shorter padding does. */
  lemma PaddingIsMinimal(len: nat, n: nat)
    ensures (len + Padding(len)) % 4 == 0
    ensures (len + n) % 4 == 0 ==> n >= Padding(len)
  {
  }

  /** The words every reply starts with. */
  function ReplyHeader(xid: word): seq<word> {
    [xid, REPLY, MSG_ACCEPTED, 0, 0]
  }

  function Reply(xid: word, status: word, body: seq<word>): (r: seq<byte>)
    ensures |r| == 24 + 4 * |body|
  {
    Words(ReplyHeader(xid) + [status] + body)
  }

  /** The far end: takes a record apart if it is exactly one complete single fragment. */
  function OpenRecord(frame: seq<byte>): Option<seq<byte>> {
    if |frame| >= 4 && WordAt(frame, 0) == 0x8000_0000 + (|frame| - 4) then Some(frame[4..]) else None
  }

  lemma OpenRecordInverse(payload: seq<byte>)
    requires |payload| < 0x8000_0000
    ensures OpenRecord(Record(payload)) == Some(payload)
  {
    var w, r := LAST_FRAGMENT + |payload|, Record(payload);
    assert r[0..4] == BigEndian(w) && r[4..] == payload;
    BigEndianInverse(w, r[0..4]);
  }

  /** Header, status and body words of a reply as the far end finds them, whatever follows. */
  lemma ReplyFields(xid: word, status: word, body: seq<word>, tail: seq<byte>)
    ensures var r := Reply(xid, status, body) + tail;
      && WordAt(r, 0) == xid && WordAt(r, 1) == REPLY && WordAt(r, 2) == MSG_ACCEPTED
      && WordAt(r, 3) == 0 && WordAt(r, 4) == 0 && WordAt(r, 5) == status
      && forall k | 6 <= k < 6 + |body| :: WordAt(r, k) == body[k - 6]
  {
    var ws := ReplyHeader(xid) + [status] + body;
    forall k: nat | k < |ws| ensures WordAt(Reply(xid, status, body) + tail, k) == ws[k] {
      WordsAt(ws, tail, k);
    }
  }

  // ----- The buffers themselves -----

  /** Reads up to `n` of the bytes at hand into a buffer. */
  method ReadBytes(a: array<byte>, at: nat, n: nat, rx: seq<byte>) returns (rest: seq<byte>)
    requires at + n <= a.Length
    modifies a
    ensures a[..] == Overlay(old(a[..]), at, rx[..Min(n, |rx|)])
    ensures rest == rx[Min(n, |rx|)..]
  {
    var count := Min(n, |rx|);
    var i := 0;
    while i < count
      invariant i <= count
      invariant forall k | 0 <= k < a.Length :: a[k] == if at <= k < at + i then rx[k - at] else old(a[k])
    {
      a[at + i] := rx[i];
      i := i + 1;
    }
    rest := rx[count..];
  }

  /** get_vxi_packet and get_bind_packet over TCP, which differ in the buffer only. */
  method ReceivePacket(a: array<byte>, rx: seq<byte>) returns (rest: seq<byte>, len: word)
    requires 8 < a.Length < 0x8000_0000
    modifies a
    ensures Received(a[..], rest, len) == GetPacket(old(a[..]), rx)
  {
    StoreWord(a, 0, 0);
    rest := ReadBytes(a, 0, 4, rx);
    var field := LoadWord(a, 0);
    len := field % LAST_FRAGMENT;
    if len > 4 {
      len := Min(len, a.Length - 4);
      rest := ReadBytes(a, 4, len, rest);
    }
  }

  /** Assigns consecutive fields of an overlaid structure, in the order of the structure. */
  method AssignFields(a: array<byte>, first: nat, fields: seq<word>)
    requires 4 * (first + |fields|) <= a.Length
    modifies a
    ensures a[..] == Overlay(old(a[..]), 4 * first, Words(fields))
  {
    ghost var before := a[..];
    var k := 0;
    while k < |fields|
      invariant k <= |fields|
      invariant a[..] == Assigned(before, first, fields, k)
    {
      StoreWord(a, first + k, fields[k]);
      k := k + 1;
    }
    AssignedIsOverlay(before, first, fields, k);
    assert fields[..k] == fields;
  }

  /** The buffer with the first `k` fields assigned. */
  ghost function Assigned(buf: seq<byte>, first: nat, fields: seq<word>, k: nat): (r: seq<byte>)
    requires k <= |fields| && 4 * (first + |fields|) <= |buf|
    ensures |r| == |buf|
  {
    if k == 0 then buf else PutWord(Assigned(buf, first, fields, k - 1), first + k - 1, fields[k - 1])
  }

  lemma {:induction false} AssignedIsOverlay(buf: seq<byte>, first: nat, fields: seq<word>, k: nat)
    requires k <= |fields| && 4 * (first + |fields|) <= |buf|
    ensures Assigned(buf, first, fields, k) == Overlay(buf, 4 * first, Words(fields[..k]))
  {
    if k > 0 {
      AssignedIsOverlay(buf, first, fields, k - 1);
      assert fields[..k] == fields[..k - 1] + [fields[k - 1]];
      WordsConcat(fields[..k - 1], [fields[k - 1]]);
      assert Words([fields[k - 1]]) == BigEndian(fields[k - 1]);
    }
  }

  /** fill_response_header on a packet that starts at word `first` of its buffer. */
  method FillResponseHeader(a: array<byte>, first: nat, xid: word)
    requires 4 * first + 20 <= a.Length
    modifies a
    ensures a[..] == Overlay(old(a[..]), 4 * first, Words(ReplyHeader(xid)))
  {
    AssignFields(a, first, [xid, REPLY, MSG_ACCEPTED, 0, 0]);
  }

  /** Fills a packet with zeros up to the next multiple of four. */
  method PadPacket(a: array<byte>, length: nat) returns (len: nat)
    requires 4 + length + Padding(length) <= a.Length
    modifies a
    ensures len == length + Padding(length)
    ensures a[..] == Overlay(old(a[..]), 4 + length, Zeros(Padding(length)))
  {
    ghost var before, total := a[..], length + Padding(length);
    len := length;
    while len % 4 > 0
      invariant length <= len && len + Padding(len) == total
      invariant a[..] == Zeroed(before, 4 + length, len - length)
      decreases total - len
    {
      a[4 + len] := 0;
      len := len + 1;
    }
    ZeroedIsOverlay(before, 4 + length, len - length);
  }

  /** The buffer with `n` bytes zeroed from a place on. */
  ghost function Zeroed(buf: seq<byte>, at: nat, n: nat): (r: seq<byte>)
    requires at + n <= |buf|
    ensures |r| == |buf|
  {
    if n == 0 then buf else Zeroed(buf, at, n - 1)[at + n - 1 := 0]
  }

  lemma {:induction false} ZeroedIsOverlay(buf: seq<byte>, at: nat, n: nat)
    requires at + n <= |buf|
    ensures Zeroed(buf, at, n) == Overlay(buf, at, Zeros(n))
  {
    if n > 0 {
      ZeroedIsOverlay(buf, at, n - 1);
      assert Zeros(n) == Zeros(n - 1) + [0];
    }
  }

  /** Header, padding and record mark around a packet whose body is in place. */
  method WrapPacket(a: array<byte>, xid: word, length: nat) returns (len: nat)
    requires 20 <= length && length + Padding(length) + 4 <= a.Length < 0x7FFF_FF00
    modifies a
    ensures len == length + Padding(length)
    ensures a[..] == Wrapped(old(a[..]), ReplyHeader(xid), length)
  {
    FillResponseHeader(a, 1, xid);
    len := PadPacket(a, length);
    StoreWord(a, 0, LAST_FRAGMENT + len);
  }

  ghost function Wrapped(buf: seq<byte>, header: seq<word>, length: nat): (r: seq<byte>)
    requires |header| == 5 && 20 <= length && length + Padding(length) + 4 <= |buf| < 0x7FFF_FF00
    ensures |r| == |buf|
  {
    var padded := Overlay(Overlay(buf, 4, Words(header)), 4 + length, Zeros(Padding(length)));
    PutWord(padded, 0, LAST_FRAGMENT + length + Padding(length))
  }

  /**
   * send_vxi_packet and send_bind_packet over TCP: the caller has filled in everything but the header, the
   * padding and the length.
   */
  method SendPacket(a: array<byte>, xid: word, length: nat) returns (frame: seq<byte>)
    requires 20 <= length && length + Padding(length) + 4 <= a.Length < 0x7FFF_FF00
    modifies a
    ensures frame == Frame(Words(ReplyHeader(xid)) + old(a[24..4 + length]))
  {
    ghost var before := a[..];
    var len := WrapPacket(a, xid, length);
    frame := a[..][..len + 4];
    FrameLaidOut(before, ReplyHeader(xid), length);
    assert before[24..4 + length] == old(a[24..4 + length]);
  }

  lemma OverlayBehind(buf: seq<byte>, at: nat, z: seq<byte>)
    requires 4 <= at && at + |z| <= |buf|
    ensures Overlay(buf, at, z)[4..at + |z|] == buf[4..at] + z
  {
  }

  lemma HeaderInFront(buf: seq<byte>, header: seq<byte>, length: nat)
    requires |header| == 20 && 20 <= length && 4 + length <= |buf|
    ensures Overlay(buf, 4, header)[4..4 + length] == header + buf[24..4 + length]
  {
  }

  lemma MarkInFront(buf: seq<byte>, w: word, n: nat)
    requires n + 4 <= |buf|
    ensures PutWord(buf, 0, w)[..n + 4] == BigEndian(w) + buf[4..n + 4]
  {
  }

  lemma FrameLaidOut(buf: seq<byte>, header: seq<word>, length: nat)
    requires |header| == 5 && 20 <= length && length + Padding(length) + 4 <= |buf| < 0x7FFF_FF00
    ensures Wrapped(buf, header, length)[..length + Padding(length) + 4] == Frame(Words(header) + buf[24..4 + length])
  {
    var h, z := Overlay(buf, 4, Words(header)), Zeros(Padding(length));
    HeaderInFront(buf, Words(header), length);
    OverlayBehind(h, 4 + length, z);
    MarkInFront(Overlay(h, 4 + length, z), LAST_FRAGMENT + length + |z|, length + |z|);
  }
}
