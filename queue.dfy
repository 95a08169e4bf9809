/** main/Queue.java: the crawler's frontier, a fixed-capacity circular buffer
    of strings whose `start`, `end` and `size` fields are updated in place. */
module WorkQueue {

  const FULL_MESSAGE := "Queue is full; didn't add to the queue!"
  const EMPTY_MESSAGE := "Queue is empty; nothing to dequeue!"

  /** Java's `%` on int: the remainder takes the sign of the dividend. */
  function JavaRem(a: int, b: int): (r: int)
    requires b > 0
    ensures a >= 0 ==> r == a % b
    ensures a < 0 ==> -b < r <= 0 && (a - r) % b == 0
  {
    if a >= 0 then a % b
    else
      var q := (-a) / b;
      MultipleRem(a - -((-a) % b), -q, b);
      -((-a) % b)
  }

  /** A multiple of `b` leaves no remainder. */
  lemma MultipleRem(x: int, k: int, b: int)
    requires b > 0 && x == k * b
    ensures x % b == 0
  {
    var d, m := x / b, x % b;
    assert (k - d) * b == m;
    if k - d >= 1 {
      assert false;
    } else if k - d <= -1 {
      assert false;
    }
  }

  /** What toString prints for the contents `items`: each item followed by a newline. */
  function Render(items: seq<string>): string {
    if items == [] then ""
    else Render(items[..|items| - 1]) + items[|items| - 1] + "\n"
  }

  /** The slot `k` lands on when it is at most one lap past the end of an
      array of length `L`. */
  function Wrapped(k: int, L: int): int {
    if k < L then k else k - L
  }

  /** On that range Wrapped is Java's (and Dafny's) remainder. */
  lemma Wrap(k: int, L: int)
    requires L > 0 && 0 <= k < 2 * L
    ensures k % L == Wrapped(k, L)
  {
    if k >= L {
      assert k == (k - L) + L * 1;
    }
  }

  /** One call on a queue: `enqueue(item)` or `dequeue()`. */
  datatype Op = Enqueue(item: string) | Dequeue

  /** The contents after running `ops` against contents `c` of a queue with
      `cap` slots, and the items the successful dequeues returned, in order.
      A full enqueue and an empty dequeue leave the contents alone. */
  function Replay(c: seq<string>, cap: nat, ops: seq<Op>): (seq<string>, seq<string>)
    decreases |ops|
  {
    if ops == [] then (c, [])
    else match ops[0]
      case Enqueue(x) => Replay(if |c| < cap then c + [x] else c, cap, ops[1..])
      case Dequeue =>
        if c == [] then Replay(c, cap, ops[1..])
        else
          var r := Replay(c[1..], cap, ops[1..]);
          (r.0, [c[0]] + r.1)
  }

  /** The items of the enqueue calls in `ops`, in order. */
  function Enqueued(ops: seq<Op>): seq<string> {
    if ops == [] then []
    else (if ops[0].Enqueue? then [ops[0].item] else []) + Enqueued(ops[1..])
  }

  /** No call in `ops` enqueues onto a full queue. */
  predicate NeverOverflows(c: seq<string>, cap: nat, ops: seq<Op>)
    decreases |ops|
  {
    ops == [] ||
    match ops[0]
      case Enqueue(x) => |c| < cap && NeverOverflows(c + [x], cap, ops[1..])
      case Dequeue => NeverOverflows(if c == [] then c else c[1..], cap, ops[1..])
  }

  /** FIFO: every item enqueued comes out of the queue, after the items that
      were already in it, in the order it went in; whatever has not yet been
      dequeued is still in the queue, in order. */
  lemma {:induction false} Fifo(c: seq<string>, cap: nat, ops: seq<Op>)
    requires NeverOverflows(c, cap, ops)
    ensures Replay(c, cap, ops).1 + Replay(c, cap, ops).0 == c + Enqueued(ops)
    decreases |ops|
  {
    if ops != [] {
      match ops[0]
      case Enqueue(x) =>
        assert Enqueued(ops) == [x] + Enqueued(ops[1..]);
        Fifo(c + [x], cap, ops[1..]);
      case Dequeue =>
        assert Enqueued(ops) == Enqueued(ops[1..]);
        if c == [] {
          Fifo(c, cap, ops[1..]);
        } else {
          var r := Replay(c[1..], cap, ops[1..]);
          assert Replay(c, cap, ops) == (r.0, [c[0]] + r.1);
          Fifo(c[1..], cap, ops[1..]);
          assert c == [c[0]] + c[1..];
          assert ([c[0]] + r.1) + r.0 == [c[0]] + (r.1 + r.0);
        }
    }
  }

  /** From an empty queue, the dequeued items are a prefix of the enqueued ones. */
  lemma FifoFromEmpty(cap: nat, ops: seq<Op>)
    requires NeverOverflows([], cap, ops)
    ensures Replay([], cap, ops).1 <= Enqueued(ops)
  {
    Fifo([], cap, ops);
    var r := Replay([], cap, ops);
    assert r.1 + r.0 == Enqueued(ops);
    assert (r.1 + r.0)[..|r.1|] == r.1;
  }

  class Queue {
    static const MAX_SIZE := 5096

    var queue: array<string>
    var start: int
    var end: int
    var size: int

    /** The abstract contents, oldest first. */
    ghost var Contents: seq<string>

    /** The object invariant: `size` items stored from `start` onwards, wrapping
        around the array, and `end` the slot of the newest item (or the slot
        just before `start` when the queue is empty; -1 before the first enqueue). */
    ghost predicate Valid()
      reads this, queue
    {
      && 0 <= size <= queue.Length
      && |Contents| == size
      && (queue.Length == 0 ==> start == 0 && end == -1)
      && (queue.Length > 0 ==>
            && 0 <= start < queue.Length
            && -1 <= end < queue.Length
            && Wrapped(end + 1, queue.Length) == Wrapped(start + size, queue.Length)
            && forall i :: 0 <= i < size ==> Contents[i] == queue[Wrapped(start + i, queue.Length)])
    }

    /** `new Queue(queueSize)`; a negative size would raise NegativeArraySizeException. */
    constructor (queueSize: int)
      requires queueSize >= 0
      ensures Valid() && fresh(queue)
      ensures queue.Length == queueSize && Contents == []
      ensures start == 0 && end == -1 && size == 0
    {
      queue := new string[queueSize];
      start, end, size := 0, -1, 0;
      Contents := [];
    }

    /** isEmpty: no item is stored. */
    predicate IsEmpty()
      reads this, queue
      requires Valid()
      ensures IsEmpty() <==> Contents == []
    {
      size == 0
    }

    /** isFull: as many items as the array has slots. */
    predicate IsFull()
      reads this, queue
      requires Valid()
      ensures IsFull() <==> |Contents| == queue.Length
    {
      size >= queue.Length
    }

    /** nextI: the slot after `i`, wrapping at the end of the array. */
    function NextI(i: int): (r: int)
      reads this
      requires queue.Length > 0
      ensures i >= -1 ==> 0 <= r < queue.Length
      ensures -1 <= i < queue.Length ==> r == Wrapped(i + 1, queue.Length)
    {
      if -1 <= i < queue.Length then Wrap(i + 1, queue.Length); JavaRem(i + 1, queue.Length)
      else JavaRem(i + 1, queue.Length)
    }

    /** enqueue: store `s` after the newest item and return "", or, on a full
        queue, change nothing and return the capacity message. The grow branch
        of the source allocates and copies into a local array that is never
        installed, so it leaves the queue as it was. */
    method Enqueue(s: string) returns (msg: string)
      requires Valid()
      modifies this, queue
      ensures Valid() && queue == old(queue)
      ensures old(size) < queue.Length ==>
        && msg == ""
        && Contents == old(Contents) + [s]
        && end == old(NextI(end)) && queue[end] == s
        && start == old(start) && size == old(size) + 1
        && forall k :: 0 <= k < queue.Length && k != end ==> queue[k] == old(queue[k])
      ensures old(size) >= queue.Length ==>
        && msg == FULL_MESSAGE
        && Contents == old(Contents)
        && start == old(start) && end == old(end) && size == old(size)
        && queue[..] == old(queue[..])
    {
      if !IsFull() {
        end := NextI(end);
        queue[end] := s;
        size := size + 1;
        Contents := Contents + [s];
        return "";
      } else {
        if size < MAX_SIZE / 2 {
          var newQueue := new string[size * 2];
          forall k | 0 <= k < size {
            newQueue[k] := newQueue[k];
          }
        }
      }
      return FULL_MESSAGE;
    }

    /** dequeue: remove and return the oldest item, or, on an empty queue,
        change nothing and return the underflow message. */
    method Dequeue() returns (s: string)
      requires Valid()
      modifies this
      ensures Valid() && queue == old(queue) && queue[..] == old(queue[..])
      ensures old(size) > 0 ==>
        && s == old(Contents)[0] && Contents == old(Contents)[1..]
        && s == old(queue[start])
        && start == old(NextI(start)) && end == old(end) && size == old(size) - 1
      ensures old(size) == 0 ==>
        && s == EMPTY_MESSAGE && Contents == old(Contents)
        && start == old(start) && end == old(end) && size == old(size)
    {
      if !IsEmpty() {
        size := size - 1;
        s := queue[start];
        start := NextI(start);
        Contents := Contents[1..];
        return;
      }
      return EMPTY_MESSAGE;
    }

    /** Runs the calls `ops` one after the other on this queue and collects
        what the successful dequeues return. */
    method Perform(ops: seq<Op>) returns (out: seq<string>)
      requires Valid()
      modifies this, queue
      ensures Valid() && queue == old(queue)
      ensures (Contents, out) == Replay(old(Contents), queue.Length, ops)
    {
      out := [];
      assert ops[0..] == ops;
      assert [] + Replay(Contents, queue.Length, ops).1 == Replay(Contents, queue.Length, ops).1;
      for i := 0 to |ops|
        invariant Valid() && queue == old(queue)
        invariant (Replay(Contents, queue.Length, ops[i..]).0,
                   out + Replay(Contents, queue.Length, ops[i..]).1)
                  == Replay(old(Contents), queue.Length, ops)
      {
        assert ops[i..][1..] == ops[i + 1..];
        ghost var c0, out0 := Contents, out;
        ghost var r := Replay(c0, queue.Length, ops[i..]);
        match ops[i]
        case Enqueue(x) =>
          var _ := Enqueue(x);
          assert r == Replay(Contents, queue.Length, ops[i + 1..]);
        case Dequeue =>
          if !IsEmpty() {
            var s := Dequeue();
            out := out + [s];
            ghost var r' := Replay(Contents, queue.Length, ops[i + 1..]);
            assert r == (r'.0, [s] + r'.1);
            assert out + r'.1 == out0 + ([s] + r'.1);
          } else {
            assert r == Replay(Contents, queue.Length, ops[i + 1..]);
          }
      }
      assert ops[|ops|..] == [];
      assert Replay(Contents, queue.Length, []) == (Contents, []);
      assert out + [] == out;
    }

    /** toString: the `size` items from `start`, in order, each followed by a newline. */
    method ToString() returns (s: string)
      requires Valid()
      ensures s == Render(Contents)
    {
      s := "";
      for i := 0 to size
        invariant s == Render(Contents[..i])
      {
        assert Contents[..i + 1][..i] == Contents[..i];
        Wrap(start + i, queue.Length);
        s := s + queue[(start + i) % queue.Length] + "\n";
      }
      assert Contents[..size] == Contents;
    }
  }
}
