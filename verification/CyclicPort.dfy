/** The cyclic counter that picks the VXI listening port. */
module CyclicPort {
  import opened Bytes

  /** Value and range of a counter. */
  datatype Cycle = Cycle(start: word, end: word, value: word) {

    predicate Ok() {
      start <= value <= end
    }

    function Size(): (n: nat)
      requires Ok()
    {
      end - start + 1
    }

    function Next(): (c: Cycle)
      requires Ok()
    {
      this.(value := if value < end then value + 1 else start)
    }

    function Prev(): (c: Cycle)
      requires Ok()
    {
      this.(value := if value > start then value - 1 else end)
    }

    /** The counter `k` positions further round the range. */
    function Ahead(k: nat): (c: Cycle)
      requires Ok()
    {
      this.(value := start + (value - start + k) % Size())
    }
  }

  /** Both steps stay in the range and undo each other at every value, the ends included. */
  lemma NextPrevInverse(c: Cycle)
    requires c.Ok()
    ensures c.Next().Ok() && c.Prev().Ok()
    ensures c.Next().Prev() == c && c.Prev().Next() == c
    ensures c.Next() == c <==> c.start == c.end
  {
  }

  /** `k` steps and one more are `k + 1` steps; no steps is where the counter was. */
  lemma AheadStep(c: Cycle, k: nat)
    requires c.Ok()
    ensures c.Ahead(0) == c
    ensures c.Ahead(k).Ok() && c.Ahead(k).Next() == c.Ahead(k + 1)
  {
    var n, d := c.Size(), c.value - c.start;
    ModUnique(d, 0, d, n);
    NextRemainder(d + k, n);
  }

  lemma NextRemainder(x: nat, n: nat)
    requires n > 0
    ensures (x + 1) % n == if x % n + 1 < n then x % n + 1 else 0
  {
    var q, r := x / n, x % n;
    assert x == q * n + r;
    if r + 1 < n {
      ModUnique(x + 1, q, r + 1, n);
    } else {
      ModUnique(x + 1, q + 1, 0, n);
    }
  }

  lemma MultiplesApart(a: int, b: int, n: nat)
    requires a < b
    ensures a * n + n <= b * n
  {
    assert b * n == a * n + (b - a) * n;
    assert (b - a) * n == n + (b - a - 1) * n;
  }

  lemma ModUnique(x: int, q: int, r: nat, n: nat)
    requires r < n && x == q * n + r
    ensures x % n == r
  {
    var q' := x / n;
    assert x == q' * n + x % n;
    if q < q' {
      MultiplesApart(q, q', n);
    } else if q' < q {
      MultiplesApart(q', q, n);
    }
  }

  /** Two positions of one counter coincide exactly when they are whole turns apart. */
  lemma AheadCoincide(c: Cycle, j: nat, k: nat)
    requires c.Ok() && j <= k
    ensures c.Ahead(j) == c.Ahead(k) <==> (k - j) % c.Size() == 0
  {
    SameRemainder(c.value - c.start + j, c.value - c.start + k, c.Size());
  }

  lemma SameRemainder(x: int, y: int, n: nat)
    requires n > 0
    ensures x % n == y % n <==> (y - x) % n == 0
  {
    var qx, qy := x / n, y / n;
    assert x == qx * n + x % n && y == qy * n + y % n;
    if x % n == y % n {
      assert y - x == (qy - qx) * n;
      ModUnique(y - x, qy - qx, 0, n);
    }
    if (y - x) % n == 0 {
      var t := (y - x) / n;
      assert y - x == t * n;
      assert y == (qx + t) * n + x % n;
      ModUnique(y, qx + t, x % n, n);
    }
  }

  /** The counter as the firmware keeps it: three words changed in place. */
  class CyclicWord {
    var data: word
    var start: word
    var end: word

    ghost predicate Valid()
      reads this
    {
      View().Ok()
    }

    ghost function View(): Cycle
      reads this
    {
      Cycle(start, end, data)
    }

    constructor (first: word, last: word, value: word := 0)
      ensures Valid()
      ensures {start, end} == {first, last} && start <= end
      ensures data == if start <= value <= end then value else start
    {
      start := if first < last then first else last;
      end := if first < last then last else first;
      data := if value >= (if first < last then first else last) && value <= (if first < last then last else first)
              then value else if first < last then first else last;
    }

    method IsNoncyclic() returns (single: bool)
      requires Valid()
      ensures single <==> View().Size() == 1
    {
      single := start == end;
    }

    method GotoPrev() returns (v: word)
      requires Valid()
      modifies this
      ensures Valid() && View() == old(View()).Prev() && v == data
    {
      data := if data > start then data - 1 else end;
      v := data;
    }

    method GotoNext() returns (v: word)
      requires Valid()
      modifies this
      ensures Valid() && View() == old(View()).Next() && v == data
    {
      data := if data < end then data + 1 else start;
      v := data;
    }

    /** Post-increment: the value before the step is returned. */
    method PostIncrement() returns (v: word)
      requires Valid()
      modifies this
      ensures Valid() && View() == old(View()).Next() && v == old(data)
    {
      v := data;
      var _ := GotoNext();
    }
  }
}
