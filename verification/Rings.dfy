/** Circular buffers as the store and the history files keep them: an array of
    slots, the next slot to write, and how many slots hold data. */
module Rings {
  import opened Samples

  datatype Ring<T> = Ring(slots: seq<T>, head: nat, count: nat)

  ghost predicate Valid<T>(r: Ring<T>)
  {
    |r.slots| > 0 && r.head < |r.slots| && r.count <= |r.slots|
  }

  /** Slot of the oldest entry. */
  function Start(head: nat, count: nat, capacity: nat): (s: nat)
    requires capacity > 0 && count <= capacity
    ensures s < capacity
  {
    (head + capacity - count) % capacity
  }

  /** Slot of the index-th oldest entry. */
  function SlotOf(head: nat, count: nat, capacity: nat, index: nat): (s: nat)
    requires capacity > 0 && count <= capacity
    ensures s < capacity
  {
    (Start(head, count, capacity) + index) % capacity
  }

  /** The entries a ring holds, oldest first. */
  function Denote<T>(r: Ring<T>): (s: seq<T>)
    requires Valid(r)
    ensures |s| == r.count
    ensures forall i :: 0 <= i < r.count ==> s[i] == r.slots[SlotOf(r.head, r.count, |r.slots|, i)]
  {
    seq(r.count, i requires 0 <= i < r.count => r.slots[SlotOf(r.head, r.count, |r.slots|, i)])
  }

  /** A ring as store_new allocates it: every slot zero, nothing in it. */
  function ZeroRing(n: nat, capacity: nat): (r: Ring<Sample>)
    requires capacity > 0
    ensures Valid(r) && |r.slots| == capacity && Denote(r) == []
    ensures forall s :: 0 <= s < capacity ==> r.slots[s] == Sample(0, seq(n, _ => Present(0.0)))
  {
    Ring(seq(capacity, _ => Sample(0, seq(n, _ => Present(0.0)))), 0, 0)
  }

  function Append<T>(r: Ring<T>, x: T): (q: Ring<T>)
    requires Valid(r)
    ensures Valid(q) && |q.slots| == |r.slots|
  {
    Ring(r.slots[r.head := x], (r.head + 1) % |r.slots|, if r.count < |r.slots| then r.count + 1 else r.count)
  }

  function AppendAll<T>(r: Ring<T>, xs: seq<T>): (q: Ring<T>)
    requires Valid(r)
    ensures Valid(q) && |q.slots| == |r.slots|
    decreases |xs|
  {
    if xs == [] then r else Append(AppendAll(r, xs[..|xs| - 1]), xs[|xs| - 1])
  }

  /** Reduction of a sum that passes the end of the buffer at most once. */
  lemma {:induction false} WrapOnce(a: nat, capacity: nat)
    requires 0 < capacity && a < 2 * capacity
    ensures a % capacity == if a < capacity then a else a - capacity
  {
    if a >= capacity {
      assert a % capacity == (a - capacity) % capacity;
    }
  }

  /** Slots of a ring spelled out without modular arithmetic. */
  lemma {:induction false} SlotOfCases(head: nat, count: nat, capacity: nat, index: nat)
    requires 0 < capacity && head < capacity && count <= capacity && index < capacity
    ensures var d := head - count + index;
            SlotOf(head, count, capacity, index) ==
            if d < 0 then d + capacity else if d < capacity then d else d - capacity
  {
    WrapOnce(head + capacity - count, capacity);
    WrapOnce(Start(head, count, capacity) + index, capacity);
  }

  /** Appending to the ring appends to the list, dropping the oldest entry when full. */
  lemma {:induction false} AppendDenotes<T>(r: Ring<T>, x: T)
    requires Valid(r)
    ensures Denote(Append(r, x)) == LastN(Denote(r) + [x], |r.slots|)
  {
    var n := |r.slots|;
    var q := Append(r, x);
    WrapOnce(r.head + 1, n);
    forall i | 0 <= i < q.count
      ensures Denote(q)[i] == LastN(Denote(r) + [x], n)[i]
    {
      SlotOfCases(q.head, q.count, n, i);
      if i < q.count - 1 {
        SlotOfCases(r.head, r.count, n, if r.count < n then i else i + 1);
      }
    }
  }

  lemma {:induction false} AppendAllDenotes<T>(r: Ring<T>, xs: seq<T>)
    requires Valid(r)
    ensures Denote(AppendAll(r, xs)) == LastN(Denote(r) + xs, |r.slots|)
    decreases |xs|
  {
    var n := |r.slots|;
    if xs == [] {
      assert Denote(r) + xs == Denote(r);
    } else {
      var front, x := xs[..|xs| - 1], xs[|xs| - 1];
      AppendAllDenotes(r, front);
      AppendDenotes(AppendAll(r, front), x);
      LastNOfTrimmed(Denote(r) + front, [x], n);
      assert Denote(r) + front + [x] == Denote(r) + xs;
    }
  }

  lemma {:induction false} AppendAllNext<T>(r: Ring<T>, xs: seq<T>, x: T)
    requires Valid(r)
    ensures AppendAll(r, xs + [x]) == Append(AppendAll(r, xs), x)
  {
    assert (xs + [x])[..|xs|] == xs;
  }

  lemma {:induction false} AppendAllSplit<T>(r: Ring<T>, xs: seq<T>, ys: seq<T>)
    requires Valid(r)
    ensures AppendAll(r, xs + ys) == AppendAll(AppendAll(r, xs), ys)
    decreases |ys|
  {
    if ys == [] {
      assert xs + ys == xs;
    } else {
      AppendAllSplit(r, xs, ys[..|ys| - 1]);
      assert (xs + ys)[..|xs + ys| - 1] == xs + ys[..|ys| - 1];
    }
  }

  /** A pair of rings whose heads differ still denotes one list: the ring restored
      from a full file starts at slot 0 whatever slot the original had reached. */
  lemma {:induction false} HeadAfter<T>(r: Ring<T>, xs: seq<T>)
    requires Valid(r)
    ensures var q := AppendAll(r, xs);
            q.head == (r.head + |xs|) % |r.slots| &&
            q.count == if r.count + |xs| < |r.slots| then r.count + |xs| else |r.slots|
    decreases |xs|
  {
    if xs == [] {
      WrapOnce(r.head, |r.slots|);
    } else {
      var front := xs[..|xs| - 1];
      HeadAfter(r, front);
      ModStep(r.head + |front|, |r.slots|);
    }
  }

  /** Two ways of writing a number as a multiple of n plus a remainder agree. */
  lemma {:induction false} SameQuotient(q: int, c: int, d: int, m: int, n: int)
    requires 0 <= c < n && 0 <= m < n && q * n + c == d * n + m
    ensures q == d && c == m
  {
    if q > d {
      MulAtLeast(q - d, n);
    } else if q < d {
      MulAtLeast(d - q, n);
    }
  }

  lemma {:induction false} MulAtLeast(k: int, n: int)
    requires k >= 1 && n >= 0
    ensures k * n >= n
  {
  }

  lemma {:induction false} ModUnique(a: nat, q: nat, c: nat, n: nat)
    requires c < n && a == q * n + c
    ensures a % n == c && a / n == q
  {
    SameQuotient(q, c, a / n, a % n, n);
  }

  lemma {:induction false} SmallMod(a: nat, n: nat)
    requires a < n
    ensures a % n == a
  {
    ModUnique(a, 0, a, n);
  }

  lemma {:induction false} ModStep(a: nat, n: nat)
    requires n > 0
    ensures (a % n + 1) % n == (a + 1) % n
  {
    var q, c := a / n, a % n;
    if c + 1 == n {
      assert a + 1 == (q + 1) * n + 0;
      ModUnique(a + 1, q + 1, 0, n);
      ModUnique(n, 1, 0, n);
    } else {
      ModUnique(a + 1, q, c + 1, n);
      WrapOnce(c + 1, n);
    }
  }
}
