/** Octets, 32-bit words and their big-endian image (sections 4.2 and 4.10 of RFC 4506). */
module Bytes {

  type byte = i: int | 0 <= i < 0x100
  type word = i: int | 0 <= i < 0x1_0000_0000

  /** The four octets of a word, most significant first. */
  function BigEndian(w: word): (b: seq<byte>)
    ensures |b| == 4
  {
    [w / 0x100_0000, w / 0x1_0000 % 0x100, w / 0x100 % 0x100, w % 0x100]
  }

  function FromBigEndian(b: seq<byte>): word
    requires |b| == 4
  {
    var b0: int, b1: int, b2: int, b3: int := b[0], b[1], b[2], b[3];
    b0 * 0x100_0000 + b1 * 0x1_0000 + b2 * 0x100 + b3
  }

  lemma BigEndianInverse(w: word, b: seq<byte>)
    requires |b| == 4
    ensures FromBigEndian(BigEndian(w)) == w
    ensures BigEndian(FromBigEndian(b)) == b
  {
    assert w / 0x1_0000 == w / 0x100_0000 * 0x100 + w / 0x1_0000 % 0x100;
    assert w / 0x100 == w / 0x1_0000 * 0x100 + w / 0x100 % 0x100;
    var v := FromBigEndian(b);
    var b0: int, b1: int, b2: int := b[0], b[1], b[2];
    assert v / 0x100 == b0 * 0x1_0000 + b1 * 0x100 + b2;
    assert v / 0x1_0000 == b0 * 0x100 + b1;
  }

  /** Network order: the first octet on the wire carries the most significant bits. */
  lemma NetworkOrder(w: word)
    ensures var b := BigEndian(w);
      var b0: int, b1: int, b2: int, b3: int := b[0], b[1], b[2], b[3];
      w == b0 * 0x100_0000 + b1 * 0x1_0000 + b2 * 0x100 + b3
  {
    BigEndianInverse(w, BigEndian(w));
  }

  /** Word number `k` of a buffer, the way the overlaid packet structures see it. */
  function WordAt(buf: seq<byte>, k: nat): word
    requires 4 * k + 4 <= |buf|
  {
    FromBigEndian(buf[4 * k..4 * k + 4])
  }

  function PutWord(buf: seq<byte>, k: nat, w: word): (r: seq<byte>)
    requires 4 * k + 4 <= |buf|
    ensures |r| == |buf|
  {
    buf[..4 * k] + BigEndian(w) + buf[4 * k + 4..]
  }

  /** Writing one field changes that field and nothing else. */
  lemma PutWordFrame(buf: seq<byte>, k: nat, w: word)
    requires 4 * k + 4 <= |buf|
    ensures WordAt(PutWord(buf, k, w), k) == w
    ensures forall j: nat | j != k && 4 * j + 4 <= |buf| :: WordAt(PutWord(buf, k, w), j) == WordAt(buf, j)
    ensures forall i | 0 <= i < |buf| && !(4 * k <= i < 4 * k + 4) :: PutWord(buf, k, w)[i] == buf[i]
  {
    var r := PutWord(buf, k, w);
    assert r[4 * k..4 * k + 4] == BigEndian(w);
    BigEndianInverse(w, BigEndian(w));
    forall j: nat | j != k && 4 * j + 4 <= |buf|
      ensures WordAt(r, j) == WordAt(buf, j)
    {
      assert r[4 * j..4 * j + 4] == buf[4 * j..4 * j + 4];
    }
  }

  /** A word does not depend on what follows it. */
  lemma WordInPrefix(b: seq<byte>, tail: seq<byte>, k: nat)
    requires 4 * k + 4 <= |b|
    ensures WordAt(b + tail, k) == WordAt(b, k)
  {
    assert (b + tail)[4 * k..4 * k + 4] == b[4 * k..4 * k + 4];
  }

  /** A sequence of words laid out one after the other. */
  function Words(ws: seq<word>): (b: seq<byte>)
    ensures |b| == 4 * |ws|
  {
    if ws == [] then [] else BigEndian(ws[0]) + Words(ws[1..])
  }

  lemma {:induction false} WordsConcat(a: seq<word>, b: seq<word>)
    ensures Words(a + b) == Words(a) + Words(b)
  {
    if a == [] {
      assert a + b == b;
    } else {
      assert (a + b)[0] == a[0] && (a + b)[1..] == a[1..] + b;
      WordsConcat(a[1..], b);
    }
  }

  /** Reading a word back out of a layout, whatever follows it. */
  lemma {:induction false} WordsAt(ws: seq<word>, tail: seq<byte>, k: nat)
    requires k < |ws|
    ensures WordAt(Words(ws) + tail, k) == ws[k]
  {
    var b := Words(ws) + tail;
    if k == 0 {
      assert b[0..4] == BigEndian(ws[0]);
      BigEndianInverse(ws[0], b[0..4]);
    } else {
      WordsAt(ws[1..], tail, k - 1);
      var c := Words(ws[1..]) + tail;
      assert b == BigEndian(ws[0]) + c;
      assert b[4 * k..4 * k + 4] == c[4 * (k - 1)..4 * (k - 1) + 4];
    }
  }

  /** Assigning a field of an overlaid structure. */
  method StoreWord(a: array<byte>, k: nat, w: word)
    requires 4 * k + 4 <= a.Length
    modifies a
    ensures a[..] == PutWord(old(a[..]), k, w)
  {
    var b := BigEndian(w);
    a[4 * k], a[4 * k + 1], a[4 * k + 2], a[4 * k + 3] := b[0], b[1], b[2], b[3];
    assert a[..] == PutWord(old(a[..]), k, w);
  }

  /** Reading a field of an overlaid structure. */
  method LoadWord(a: array<byte>, k: nat) returns (w: word)
    requires 4 * k + 4 <= a.Length
    ensures w == WordAt(a[..], k)
  {
    var b := a[4 * k..4 * k + 4];
    assert a[..][4 * k..4 * k + 4] == b;
    w := FromBigEndian(b);
  }
}
