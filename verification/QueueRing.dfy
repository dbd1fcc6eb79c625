/** The storage area of tests/FreeRTOS/queue.c: a ring of fixed-size slots in a byte array,
 *  addressed by two moving pointers, proved to be a bounded double-ended sequence. */
module QueueRing {
  import opened Arithmetic
  import opened Wrappers

  type byte = x: int | 0 <= x < 256

  /** queueSEND_TO_BACK, queueSEND_TO_FRONT and queueOVERWRITE. */
  datatype Position = ToBack | ToFront | Overwrite

  // ----- what a queue means -----

  /** What a send is meant to leave in the queue. */
  function Put<T>(s: seq<T>, x: T, p: Position): seq<T> {
    match p
    case ToBack => s + [x]
    case ToFront => [x] + s
    case Overwrite => if s == [] then [x] else [x] + s[1..]
  }

  /** What prvCopyDataToQueue leaves in it: with items of size 0 it does not look at the position. */
  function Stored(s: seq<seq<byte>>, x: seq<byte>, p: Position, size: nat): seq<seq<byte>> {
    if size == 0 then s + [x] else Put(s, x, p)
  }

  ghost predicate ItemsOfSize(s: seq<seq<byte>>, size: nat) {
    forall i | 0 <= i < |s| :: |s[i]| == size
  }

  /** The copy does what is meant unless it overwrites the item of a full queue of size-0 items. */
  lemma StoredAsMeant(s: seq<seq<byte>>, x: seq<byte>, p: Position, size: nat)
    requires ItemsOfSize(s, size) && |x| == size
    ensures Stored(s, x, p, size) == Put(s, x, p) <==> !(size == 0 && p.Overwrite? && s != [])
  {
    if size == 0 {
      assert |s + [x]| == |s| + 1;
      if p.ToFront? {
        assert forall i | 0 <= i < |s| :: s[i] == [] == x;
        assert s + [x] == [x] + s;
      }
    }
  }

  /** A send to a queue that has room, or an overwrite of a queue of length n == 1, keeps at most
      n items, again unless it overwrites the item of a queue of size-0 items. */
  lemma StoredKeepsBound(s: seq<seq<byte>>, x: seq<byte>, p: Position, size: nat, n: nat)
    requires |s| <= n && (|s| < n || p.Overwrite?) && (p.Overwrite? ==> n == 1)
    ensures |Stored(s, x, p, size)| <= n <==> !(size == 0 && p.Overwrite? && s != [])
  {
  }

  /** xQueueOverwrite on a given binary semaphore counts two gives in a queue of length one. */
  lemma OverwriteOverfillsSemaphore()
    ensures |Stored([[]], [], Overwrite, 0)| == 2
  {
  }

  // ----- runs of sends to any position and receives -----

  datatype Op = SendTo(item: seq<byte>, position: Position) | ReceiveOne

  predicate Succeeds(s: seq<seq<byte>>, op: Op, n: nat) {
    match op
    case SendTo(_, p) => |s| < n || p.Overwrite?
    case ReceiveOne => s != []
  }

  /** The queue of length n after a call of xQueueGenericSend or xQueueReceive. */
  function After(s: seq<seq<byte>>, op: Op, n: nat, size: nat): seq<seq<byte>> {
    if !Succeeds(s, op, n) then s
    else match op
         case SendTo(x, p) => Stored(s, x, p, size)
         case ReceiveOne => s[1..]
  }

  function Run(s: seq<seq<byte>>, ops: seq<Op>, n: nat, size: nat): seq<seq<byte>>
    decreases |ops|
  {
    if |ops| == 0 then s else Run(After(s, ops[0], n, size), ops[1..], n, size)
  }

  /** The item a call receives, accepts for sending, or replaces by an overwriting send, if any. */
  function ReceivedBy(s: seq<seq<byte>>, op: Op): seq<seq<byte>> {
    if op.ReceiveOne? && s != [] then [s[0]] else []
  }

  function SentBy(s: seq<seq<byte>>, op: Op, n: nat): seq<seq<byte>> {
    if op.SendTo? && Succeeds(s, op, n) then [op.item] else []
  }

  function ReplacedBy(s: seq<seq<byte>>, op: Op, size: nat): seq<seq<byte>> {
    if op.SendTo? && op.position.Overwrite? && size > 0 && s != [] then [s[0]] else []
  }

  /** The same for a run, in order. */
  function Received(s: seq<seq<byte>>, ops: seq<Op>, n: nat, size: nat): seq<seq<byte>>
    decreases |ops|
  {
    if |ops| == 0 then [] else ReceivedBy(s, ops[0]) + Received(After(s, ops[0], n, size), ops[1..], n, size)
  }

  function Sent(s: seq<seq<byte>>, ops: seq<Op>, n: nat, size: nat): seq<seq<byte>>
    decreases |ops|
  {
    if |ops| == 0 then [] else SentBy(s, ops[0], n) + Sent(After(s, ops[0], n, size), ops[1..], n, size)
  }

  function Replaced(s: seq<seq<byte>>, ops: seq<Op>, n: nat, size: nat): seq<seq<byte>>
    decreases |ops|
  {
    if |ops| == 0 then [] else ReplacedBy(s, ops[0], size) + Replaced(After(s, ops[0], n, size), ops[1..], n, size)
  }

  lemma PutConserves<T>(s: seq<T>, x: T, p: Position)
    ensures multiset(s) + multiset([x])
         == multiset(if p.Overwrite? && s != [] then [s[0]] else []) + multiset(Put(s, x, p))
  {
    if p.Overwrite? && s != [] {
      assert s == [s[0]] + s[1..];
    }
  }

  lemma OneConserves(s: seq<seq<byte>>, op: Op, n: nat, size: nat)
    ensures multiset(s) + multiset(SentBy(s, op, n))
         == multiset(ReceivedBy(s, op)) + (multiset(ReplacedBy(s, op, size)) + multiset(After(s, op, n, size)))
  {
    hide Put;
    match op
    case SendTo(x, p) =>
      if size == 0 {
        assert multiset(s + [x]) == multiset(s) + multiset([x]);
      } else {
        PutConserves(s, x, p);
      }
    case ReceiveOne =>
      if s != [] {
        assert s == [s[0]] + s[1..];
      }
  }

  lemma Chain<T>(s: multiset<T>, t: multiset<T>, u: multiset<T>, a: seq<T>, a': seq<T>, r: seq<T>, r': seq<T>,
                 p: seq<T>, p': seq<T>)
    requires s + multiset(a) == multiset(r) + (multiset(p) + t)
    requires t + multiset(a') == multiset(r') + (multiset(p') + u)
    ensures s + multiset(a + a') == multiset(r + r') + (multiset(p + p') + u)
  {
    assert s + multiset(a + a') == (s + multiset(a)) + multiset(a');
    assert multiset(r + r') + (multiset(p + p') + u)
        == multiset(r) + (multiset(p) + (multiset(r') + (multiset(p') + u)));
  }

  /** Over every run of sends to any position and receives, nothing is lost or duplicated. */
  lemma {:induction false} NothingLost(s: seq<seq<byte>>, ops: seq<Op>, n: nat, size: nat)
    ensures multiset(s) + multiset(Sent(s, ops, n, size))
         == multiset(Received(s, ops, n, size)) + (multiset(Replaced(s, ops, n, size)) + multiset(Run(s, ops, n, size)))
    decreases |ops|
  {
    if |ops| > 0 {
      hide After, SentBy, ReceivedBy, ReplacedBy;
      var op, t, rest := ops[0], After(s, ops[0], n, size), ops[1..];
      OneConserves(s, op, n, size);
      NothingLost(t, rest, n, size);
      Chain(multiset(s), multiset(t), multiset(Run(t, rest, n, size)), SentBy(s, op, n), Sent(t, rest, n, size),
            ReceivedBy(s, op), Received(t, rest, n, size), ReplacedBy(s, op, size), Replaced(t, rest, n, size));
    }
  }

  /** What has become of an item: it is in the queue, or was the k-th received, or was replaced. */
  datatype Fate = Queued(index: nat) | Delivered(k: nat) | Gone

  /** The fate of item i of a queue of some length, from the positions of the sends alone: a send to
      the front moves it back by one, a receive moves it up by one, a send to the back leaves it. */
  function FateOf(length: nat, i: nat, ops: seq<Op>, n: nat, size: nat): Fate
    requires i < length
    decreases |ops|
  {
    if |ops| == 0 then Queued(i)
    else match ops[0]
         case ReceiveOne =>
           if i == 0 then Delivered(0)
           else (match FateOf(length - 1, i - 1, ops[1..], n, size)
                 case Delivered(k) => Delivered(k + 1)
                 case f => f)
         case SendTo(_, p) =>
           if length >= n && !p.Overwrite? then FateOf(length, i, ops[1..], n, size)
           else if size == 0 || p.ToBack? then FateOf(length + 1, i, ops[1..], n, size)
           else if p.ToFront? then FateOf(length + 1, i + 1, ops[1..], n, size)
           else if i == 0 then Gone
           else FateOf(length, i, ops[1..], n, size)
  }

  predicate Meets(f: Fate, x: seq<byte>, queued: seq<seq<byte>>, received: seq<seq<byte>>, replaced: seq<seq<byte>>) {
    match f
    case Queued(j) => j < |queued| && queued[j] == x
    case Delivered(k) => k < |received| && received[k] == x
    case Gone => x in replaced
  }

  lemma MeetsLater(f: Fate, x: seq<byte>, queued: seq<seq<byte>>, a: seq<seq<byte>>, received: seq<seq<byte>>,
                   b: seq<seq<byte>>, replaced: seq<seq<byte>>)
    requires Meets(f, x, queued, received, replaced)
    ensures Meets(if f.Delivered? then Delivered(f.k + |a|) else f, x, queued, a + received, b + replaced)
  {
  }

  /** Where item i of s is after a call that does not take it away. */
  function IndexAfter(s: seq<seq<byte>>, i: nat, op: Op, n: nat, size: nat): (j: int)
    requires i < |s| && !(i == 0 && (op.ReceiveOne? || ReplacedBy(s, op, size) != []))
    ensures 0 <= j < |After(s, op, n, size)| && After(s, op, n, size)[j] == s[i]
  {
    match op
    case ReceiveOne => i - 1
    case SendTo(_, p) => if |s| < n && size > 0 && p.ToFront? then i + 1 else i
  }

  /** The queue is a double-ended queue over every run: each item meets its fate. */
  lemma {:induction false} ItemMeetsFate(s: seq<seq<byte>>, i: nat, ops: seq<Op>, n: nat, size: nat)
    requires i < |s|
    ensures Meets(FateOf(|s|, i, ops, n, size), s[i], Run(s, ops, n, size), Received(s, ops, n, size),
                  Replaced(s, ops, n, size))
    decreases |ops|
  {
    if |ops| > 0 && !(i == 0 && (ops[0].ReceiveOne? || ReplacedBy(s, ops[0], size) != [])) {
      hide Meets;
      var t, j, rest := After(s, ops[0], n, size), IndexAfter(s, i, ops[0], n, size), ops[1..];
      ItemMeetsFate(t, j, rest, n, size);
      MeetsLater(FateOf(|t|, j, rest, n, size), s[i], Run(t, rest, n, size), ReceivedBy(s, ops[0]),
                 Received(t, rest, n, size), ReplacedBy(s, ops[0], size), Replaced(t, rest, n, size));
    }
  }

  /** Without sends to the front or overwriting sends, items are received in the order sent. */
  lemma {:induction false} FirstInFirstOut(s: seq<seq<byte>>, ops: seq<Op>, n: nat, size: nat)
    requires forall k | 0 <= k < |ops| :: ops[k].SendTo? ==> ops[k].position.ToBack?
    ensures s + Sent(s, ops, n, size) == Received(s, ops, n, size) + Run(s, ops, n, size)
    decreases |ops|
  {
    if |ops| > 0 {
      var t, rest := After(s, ops[0], n, size), ops[1..];
      FirstInFirstOut(t, rest, n, size);
      assert s + SentBy(s, ops[0], n) == ReceivedBy(s, ops[0]) + t;
      Regroup(s, SentBy(s, ops[0], n), Sent(t, rest, n, size), ReceivedBy(s, ops[0]), t,
              Received(t, rest, n, size), Run(t, rest, n, size));
    }
  }

  lemma Regroup<T>(s: seq<T>, a: seq<T>, b: seq<T>, r: seq<T>, t: seq<T>, q: seq<T>, u: seq<T>)
    requires s + a == r + t && t + b == q + u
    ensures s + (a + b) == (r + q) + u
  {
    assert s + (a + b) == (s + a) + b == r + (t + b) == (r + q) + u;
  }

  /** Over every run the queue keeps its length, if queues of size-0 items are not overwritten. */
  lemma {:induction false} RunKeepsBound(s: seq<seq<byte>>, ops: seq<Op>, n: nat, size: nat)
    requires |s| <= n
    requires forall k | 0 <= k < |ops| :: ops[k].SendTo? && ops[k].position.Overwrite? ==> n == 1 && size > 0
    ensures |Run(s, ops, n, size)| <= n
    decreases |ops|
  {
    if |ops| > 0 {
      if ops[0].SendTo? && Succeeds(s, ops[0], n) {
        StoredKeepsBound(s, ops[0].item, ops[0].position, size, n);
      }
      RunKeepsBound(After(s, ops[0], n, size), ops[1..], n, size);
    }
  }

  /** k sends of x to the back. */
  function Sends(x: seq<byte>, k: nat): seq<Op> {
    if k == 0 then [] else [SendTo(x, ToBack)] + Sends(x, k - 1)
  }

  function Copies(x: seq<byte>, k: nat): seq<seq<byte>> { seq(k, _ => x) }

  /** A queue of length n takes n items, whatever their size, and not one more. */
  lemma {:induction false} FillsUp(s: seq<seq<byte>>, x: seq<byte>, k: nat, n: nat, size: nat)
    requires |s| <= n
    ensures Run(s, Sends(x, k), n, size) == s + Copies(x, Min(k, n - |s|))
    ensures Sent(s, Sends(x, k), n, size) == Copies(x, Min(k, n - |s|))
    decreases k
  {
    if k > 0 {
      var t, op := After(s, SendTo(x, ToBack), n, size), Sends(x, k);
      assert op[0] == SendTo(x, ToBack) && op[1..] == Sends(x, k - 1);
      FillsUp(t, x, k - 1, n, size);
      if |s| < n {
        assert Copies(x, Min(k, n - |s|)) == [x] + Copies(x, Min(k - 1, n - |t|));
        assert t == s + [x];
      }
    }
  }

  // ----- slot arithmetic -----

  /** The slot that holds item i when the last slot read was r, in a ring of n slots. */
  function Place(r: nat, i: nat, n: nat): (p: nat)
    requires r < n && i <= n
    ensures p < n
  {
    var k := r + 1 + i;
    if k >= n + n then k - n - n else if k >= n then k - n else k
  }

  /** The slot before slot k. */
  function Previous(k: nat, n: nat): (p: nat)
    requires k < n
    ensures p < n && Place(p, 0, n) == k
  {
    if k == 0 then n - 1 else k - 1
  }

  lemma PlaceIsModular(r: nat, i: nat, n: nat)
    requires r < n && i <= n
    ensures Place(r, i, n) == (r + 1 + i) % n
  {
    var k := r + 1 + i;
    var q := if k >= n + n then 2 else if k >= n then 1 else 0;
    assert k == q * n + Place(r, i, n);
    ModUnique(k, n, q, Place(r, i, n));
  }

  /** Different items lie in different slots. */
  lemma PlacesDiffer(r: nat, i: nat, j: nat, n: nat)
    requires r < n && i < j <= n && j - i < n
    ensures Place(r, i, n) != Place(r, j, n)
  {
  }

  lemma SlotBounds(k: nat, n: nat, size: nat)
    requires k < n
    ensures (k + 1) * size == k * size + size
    ensures 0 <= k * size && (k + 1) * size <= n * size
  {
    Monotone(k + 1, n, size);
    assert (k + 1) * size == k * size + size;
  }

  lemma Monotone(a: nat, b: nat, size: nat)
    requires a <= b
    ensures a * size <= b * size
  {
    assert b * size == a * size + (b - a) * size;
  }

  /** Slot k of the storage. */
  ghost function Slot(m: seq<byte>, size: nat, n: nat, k: nat): (s: seq<byte>)
    requires k < n && |m| == n * size
    ensures |s| == size
  {
    SlotBounds(k, n, size);
    m[k * size..(k + 1) * size]
  }

  /** v and w differ at most in slot k. */
  ghost predicate OnlySlot(v: seq<byte>, w: seq<byte>, size: nat, n: nat, k: nat)
    requires k < n
  {
    && |v| == |w| == n * size
    && forall i | 0 <= i < |v| && !(k * size <= i < k * size + size) :: v[i] == w[i]
  }

  lemma OtherSlot(v: seq<byte>, w: seq<byte>, size: nat, n: nat, k: nat, j: nat)
    requires k < n && j < n && j != k && OnlySlot(v, w, size, n, k)
    ensures Slot(v, size, n, j) == Slot(w, size, n, j)
  {
    SlotBounds(j, n, size);
    SlotBounds(k, n, size);
    if j < k {
      Monotone(j + 1, k, size);
    } else {
      Monotone(k + 1, j, size);
    }
  }

  /** Slots from Place(r, 0) on hold the items. */
  ghost predicate Stores(m: seq<byte>, size: nat, n: nat, r: nat, items: seq<seq<byte>>) {
    && r < n && |items| <= n && |m| == n * size
    && forall i: nat | i < |items| :: HoldsItem(m, size, n, r, items, i)
  }

  ghost predicate HoldsItem(m: seq<byte>, size: nat, n: nat, r: nat, items: seq<seq<byte>>, i: nat)
    requires r < n && |items| <= n && |m| == n * size && i < |items|
  {
    Slot(m, size, n, Place(r, i, n)) == items[i]
  }

  lemma StoresBack(v: seq<byte>, w: seq<byte>, size: nat, n: nat, r: nat, items: seq<seq<byte>>, x: seq<byte>)
    requires Stores(v, size, n, r, items) && |items| < n
    requires OnlySlot(v, w, size, n, Place(r, |items|, n))
    requires Slot(w, size, n, Place(r, |items|, n)) == x
    ensures Stores(w, size, n, r, items + [x])
  {
    forall i: nat | i < |items| + 1
      ensures HoldsItem(w, size, n, r, items + [x], i)
    {
      if i < |items| {
        assert HoldsItem(v, size, n, r, items, i);
        PlacesDiffer(r, i, |items|, n);
        OtherSlot(v, w, size, n, Place(r, |items|, n), Place(r, i, n));
      }
    }
  }

  /** A write to the slot last read, which then becomes the first item. */
  lemma StoresFront(v: seq<byte>, w: seq<byte>, size: nat, n: nat, r: nat, items: seq<seq<byte>>, x: seq<byte>)
    requires Stores(v, size, n, r, items) && |items| < n
    requires OnlySlot(v, w, size, n, r) && Slot(w, size, n, r) == x
    ensures Stores(w, size, n, Previous(r, n), [x] + items)
  {
    var r' := Previous(r, n);
    forall i: nat | i < |items| + 1
      ensures HoldsItem(w, size, n, r', [x] + items, i)
    {
      if i > 0 {
        assert HoldsItem(v, size, n, r, items, i - 1);
        OtherSlot(v, w, size, n, r, Place(r, i - 1, n));
      }
    }
  }

  /** Moving the read slot on by one drops the first item. */
  lemma StoresTail(m: seq<byte>, size: nat, n: nat, r: nat, items: seq<seq<byte>>)
    requires Stores(m, size, n, r, items) && items != []
    ensures Stores(m, size, n, Place(r, 0, n), items[1..])
    ensures Slot(m, size, n, Place(r, 0, n)) == items[0]
  {
    assert HoldsItem(m, size, n, r, items, 0);
    forall i: nat | i < |items| - 1
      ensures HoldsItem(m, size, n, Place(r, 0, n), items[1..], i)
    {
      assert HoldsItem(m, size, n, r, items, i + 1);
    }
  }

  lemma Advance(k: nat, n: nat, size: nat)
    requires k < n && 0 < size
    ensures (k + 1) * size == k * size + size
    ensures k * size + size >= n * size <==> k + 1 == n
  {
    SlotBounds(k, n, size);
    if k + 1 < n {
      SlotBounds(k + 1, n, size);
    }
  }

  lemma Retreat(k: nat, n: nat, size: nat)
    requires k < n && 0 < size
    ensures k * size < size <==> k == 0
    ensures (if k == 0 then n * size - size else k * size - size) == Previous(k, n) * size
  {
    if k > 0 {
      Monotone(1, k, size);
    }
  }

  lemma PlaceFromPrevious(r: nat, m: nat, n: nat)
    requires r < n && m < n
    ensures Place(Previous(r, n), m + 1, n) == Place(r, m, n)
  {
  }

  // ----- the queue -----

  class Queue {
    const pcHead: array<byte>       // the storage area; the pointers below are offsets into it
    const uxLength: nat
    const uxItemSize: nat
    const pcTail: nat
    var pcWriteTo: nat
    var pcReadFrom: nat
    var uxMessagesWaiting: nat
    ghost var items: seq<seq<byte>>
    ghost var r: nat                // the slot last read

    ghost predicate Valid()
      reads this, pcHead
    {
      && 0 < uxLength && pcTail == uxLength * uxItemSize == pcHead.Length
      && uxMessagesWaiting == |items| && ItemsOfSize(items, uxItemSize)
      && (uxItemSize > 0 ==> Pointers())
    }

    /** Queues that do store data keep their items in slots r + 1, r + 2, ... modulo the length. */
    ghost predicate Pointers()
      reads this, pcHead
    {
      && Stores(pcHead[..], uxItemSize, uxLength, r, items)
      && pcReadFrom == r * uxItemSize
      && pcWriteTo == Place(r, |items|, uxLength) * uxItemSize
    }

    /** Through all wraps the write pointer stays that many slots ahead of the read pointer. */
    lemma WriteSlot()
      requires Valid() && uxItemSize > 0
      ensures pcReadFrom == r * uxItemSize && pcWriteTo == (r + 1 + uxMessagesWaiting) % uxLength * uxItemSize
    {
      PlaceIsModular(r, |items|, uxLength);
    }

    /** prvInitialiseNewQueue. */
    constructor (uxQueueLength: nat, uxItemSize: nat)
      requires 0 < uxQueueLength
      ensures Valid() && items == [] && uxLength == uxQueueLength && this.uxItemSize == uxItemSize
      ensures fresh(pcHead)
    {
      uxLength, this.uxItemSize, pcTail := uxQueueLength, uxItemSize, uxQueueLength * uxItemSize;
      pcHead := new byte[uxQueueLength * uxItemSize](_ => 0);
      pcWriteTo, uxMessagesWaiting, items, r := 0, 0, [], uxQueueLength - 1;
      pcReadFrom := (uxQueueLength - 1) * uxItemSize;
    }

    /** The pointer part of xQueueGenericReset. */
    method Reset()
      requires Valid()
      modifies this
      ensures Valid() && items == []
    {
      uxMessagesWaiting := 0;
      pcWriteTo := 0;
      pcReadFrom := (uxLength - 1) * uxItemSize;
      items, r := [], uxLength - 1;
    }

    /** memcpy of one item into slot k. */
    method CopyIn(to: nat, item: seq<byte>, ghost k: nat)
      requires |item| == uxItemSize && k < uxLength && to == k * uxItemSize && pcHead.Length == uxLength * uxItemSize
      modifies pcHead
      ensures OnlySlot(old(pcHead[..]), pcHead[..], uxItemSize, uxLength, k)
      ensures Slot(pcHead[..], uxItemSize, uxLength, k) == item
    {
      SlotBounds(k, uxLength, uxItemSize);
      forall i | 0 <= i < |item| {
        pcHead[to + i] := item[i];
      }
    }

    method CopyToBack(item: seq<byte>)
      requires Valid() && |item| == uxItemSize > 0 && |items| < uxLength
      modifies this`pcWriteTo, this`items, pcHead
      ensures Pointers() && items == old(items) + [item]
    {
      ghost var v, n, size, w := pcHead[..], uxLength, uxItemSize, Place(r, |items|, uxLength);
      Advance(w, n, size);
      CopyIn(pcWriteTo, item, w);
      pcWriteTo := pcWriteTo + uxItemSize;
      if pcWriteTo >= pcTail {
        pcWriteTo := 0;
      }
      StoresBack(v, pcHead[..], size, n, r, items, item);
      items := items + [item];
    }

    method CopyToFront(item: seq<byte>, ghost rest: seq<seq<byte>>)
      requires Valid() && |item| == uxItemSize > 0 && |rest| < uxLength
      requires rest == items || (uxLength == 1 && rest == [])
      modifies this`pcReadFrom, this`items, this`r, pcHead
      ensures Pointers() && items == [item] + rest
    {
      ghost var v, n, size := pcHead[..], uxLength, uxItemSize;
      ghost var from := r;
      Retreat(from, n, size);
      PlaceFromPrevious(from, |rest|, n);
      assert Place(from, |rest|, n) == Place(from, |items|, n);
      CopyIn(pcReadFrom, item, from);
      var p: int := pcReadFrom - uxItemSize;
      if p < 0 {
        p := pcTail - uxItemSize;
      }
      pcReadFrom := p;
      StoresFront(v, pcHead[..], size, n, from, rest, item);
      items, r := [item] + rest, Previous(from, n);
    }

    /** prvCopyDataToQueue, for a queue that is not a mutex. */
    method CopyDataToQueue(item: seq<byte>, xPosition: Position)
      requires Valid() && |item| == uxItemSize
      requires if xPosition.Overwrite? then uxLength == 1 else |items| < uxLength
      modifies this, pcHead
      ensures Valid() && items == Stored(old(items), item, xPosition, uxItemSize)
    {
      var messages := uxMessagesWaiting;
      if uxItemSize == 0 {
        items := items + [item];
      } else if xPosition.ToBack? {
        CopyToBack(item);
      } else {
        CopyToFront(item, if xPosition.Overwrite? then [] else items);
        if xPosition.Overwrite? {
          if messages > 0 {
            messages := messages - 1;
          }
        }
      }
      uxMessagesWaiting := messages + 1;
    }

    /** prvCopyDataFromQueue: the read pointer moves on to the item that is copied out. */
    method CopyDataFromQueue() returns (item: seq<byte>)
      requires Valid() && items != []
      modifies this`pcReadFrom
      ensures item == items[0]
      ensures uxItemSize > 0 ==> pcReadFrom == Place(r, 0, uxLength) * uxItemSize
    {
      if uxItemSize != 0 {
        Advance(r, uxLength, uxItemSize);
        StoresTail(pcHead[..], uxItemSize, uxLength, r, items);
        SlotBounds(Place(r, 0, uxLength), uxLength, uxItemSize);
        pcReadFrom := pcReadFrom + uxItemSize;
        if pcReadFrom >= pcTail {
          pcReadFrom := 0;
        }
        item := pcHead[pcReadFrom..pcReadFrom + uxItemSize];
      } else {
        item := [];
      }
    }

    /** The critical section of xQueueGenericSend and xQueueGenericSendFromISR. */
    method Send(item: seq<byte>, xPosition: Position) returns (pass: bool)
      requires Valid() && |item| == uxItemSize && (xPosition.Overwrite? ==> uxLength == 1)
      modifies this, pcHead
      ensures Valid() && pass == Succeeds(old(items), SendTo(item, xPosition), uxLength)
      ensures items == After(old(items), SendTo(item, xPosition), uxLength, uxItemSize)
    {
      pass := uxMessagesWaiting < uxLength || xPosition.Overwrite?;
      if pass {
        CopyDataToQueue(item, xPosition);
      }
    }

    /** The critical section of xQueueReceive and xQueueReceiveFromISR. */
    method Receive() returns (item: Option<seq<byte>>)
      requires Valid()
      modifies this
      ensures Valid()
      ensures items == After(old(items), ReceiveOne, uxLength, uxItemSize)
      ensures item == if Succeeds(old(items), ReceiveOne, uxLength) then Some(old(items)[0]) else None
    {
      item := None;
      if uxMessagesWaiting > 0 {
        var x := CopyDataFromQueue();
        uxMessagesWaiting := uxMessagesWaiting - 1;
        item := Some(x);
        if uxItemSize > 0 {
          StoresTail(pcHead[..], uxItemSize, uxLength, r, items);
        }
        items, r := items[1..], if uxItemSize > 0 then Place(r, 0, uxLength) else r;
      }
    }

    /** The critical section of xQueuePeek: the read pointer is put back. */
    method Peek() returns (item: Option<seq<byte>>)
      requires Valid()
      modifies this`pcReadFrom
      ensures Valid() && pcReadFrom == old(pcReadFrom)
      ensures item == if items == [] then None else Some(items[0])
    {
      item := None;
      if uxMessagesWaiting > 0 {
        var pcOriginalReadPosition := pcReadFrom;
        var x := CopyDataFromQueue();
        pcReadFrom := pcOriginalReadPosition;
        item := Some(x);
      }
    }
  }
}
