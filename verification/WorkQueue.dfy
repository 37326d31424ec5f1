/** The bounded ring buffer behind the thread pool's queue: a fixed array with a head, a tail
    and a count. */
module WorkQueues {
  import opened ThreadPool

  /** Position k places after h in a ring of n. */
  function Wrapped(h: nat, k: nat, n: nat): (p: nat)
    requires h < n && k <= n
    ensures p < n && p == (h + k) % n
  {
    Remainder(h + k, n);
    if h + k < n then h + k else h + k - n
  }

  lemma Remainder(x: nat, n: nat)
    requires x < 2 * n
    ensures x % n == if x < n then x else x - n
  {
  }

  class WorkQueue {
    const items: array<Item>
    var head: nat
    var tail: nat
    var count: nat

    ghost predicate Valid()
      reads this, items
    {
      && head < items.Length && tail < items.Length && count <= items.Length
      && tail == Wrapped(head, count, items.Length)
    }

    /** The queued items, oldest first. */
    ghost function Contents(): (q: seq<Item>)
      requires Valid()
      reads this, items
      ensures |q| == count <= items.Length
    {
      seq(count, k requires 0 <= k < count <= items.Length && head < items.Length reads this, items =>
        items[Wrapped(head, k, items.Length)])
    }

    constructor (capacity: nat)
      requires capacity > 0
      ensures Valid() && Contents() == [] && items.Length == capacity && fresh(items)
    {
      items := new Item[capacity](_ => Item(0, 0, []));
      head, tail, count := 0, 0, 0;
    }

    /** The part of queue_push that stores the item. */
    method Enqueue(x: Item)
      requires Valid() && count < items.Length
      modifies this, items
      ensures Valid() && Contents() == old(Contents()) + [x]
    {
      ghost var was, h, n := Contents(), head, count;
      items[tail] := x;
      tail := (tail + 1) % items.Length;
      count := count + 1;
      forall k | 0 <= k < n ensures items[Wrapped(h, k, items.Length)] == was[k] {
      }
      Remainder(h + n, items.Length);
      Remainder(Wrapped(h, n, items.Length) + 1, items.Length);
      assert Contents()[..n] == was;
    }

    /** The part of worker_fn that takes the oldest item. */
    method Dequeue() returns (x: Item)
      requires Valid() && count > 0
      modifies this
      ensures Valid() && [x] + Contents() == old(Contents())
    {
      ghost var was, h, n := Contents(), head, count;
      x := items[head];
      head := (head + 1) % items.Length;
      count := count - 1;
      Remainder(h + 1, items.Length);
      forall k | 0 <= k < n - 1
        ensures items[Wrapped(head, k, items.Length)] == was[k + 1]
      {
        assert Wrapped(head, k, items.Length) == Wrapped(h, k + 1, items.Length);
      }
    }
  }
}
