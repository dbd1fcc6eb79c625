/** The lock protocol of tests/FreeRTOS/queue.c.  While a task decides whether to block, the
 *  queue is locked: interrupt handlers may still post and receive, but only count what they
 *  did, and unlocking catches up on the event lists. */
module QueueLocks {
  import opened Arithmetic
  import opened QueueRing
  import opened Wrappers

  type Task = nat

  type int8 = x: int | -128 <= x < 128

  const UNLOCKED: int8 := -1           // queueUNLOCKED
  const LOCKED_UNMODIFIED: int8 := 0   // queueLOCKED_UNMODIFIED

  /** Conversion to int8_t. */
  function Int8(x: int): (r: int8)
    ensures -128 <= x < 128 ==> r == x
    ensures 128 <= x < 384 ==> r == x - 256
  {
    (x + 128) % 256 - 128
  }

  // ----- one half of the protocol: a lock count and the tasks it speaks for -----

  /** cTxLock with the tasks waiting to receive, or cRxLock with the tasks waiting to send. */
  datatype Half = Half(lock: int8, waiting: seq<Task>)

  function LockHalf(h: Half): Half {
    if h.lock == UNLOCKED then h.(lock := LOCKED_UNMODIFIED) else h
  }

  /** What an interrupt handler does after it has posted or received. */
  function Signal(h: Half): Half {
    if h.lock != UNLOCKED then h.(lock := Int8(h.lock + 1))
    else if h.waiting == [] then h
    else h.(waiting := h.waiting[1..])
  }

  /** How many tasks unlocking wakes. */
  function Owed(h: Half): (n: nat)
    ensures n <= |h.waiting|
  {
    if h.lock <= 0 then 0 else Min(h.lock, |h.waiting|)
  }

  /** vTaskPlaceOnEventList: the task enters at a place set by its priority. */
  function Enter(w: seq<Task>, t: Task, k: nat): seq<Task> {
    if k <= |w| then w[..k] + [t] + w[k..] else w + [t]
  }

  function UnlockHalf(h: Half): Half {
    Half(UNLOCKED, h.waiting[Owed(h)..])
  }

  function Signals(h: Half, n: nat): Half {
    if n == 0 then h else Signal(Signals(h, n - 1))
  }

  lemma Int8Next(i: nat)
    ensures Int8(Int8(i) + 1) == Int8(i + 1)
    ensures i < 255 ==> Int8(i) != UNLOCKED
  {
  }

  lemma NoSignals(h: Half)
    ensures Signals(h, 0) == h
  {
  }

  lemma OneMore(h: Half, n: nat)
    ensures Signal(Signals(h, n)) == Signals(h, n + 1)
  {
  }

  /** Up to 127 signals of a locked half only count. */
  lemma {:induction false} SignalsCount(h: Half, n: nat)
    requires 0 <= h.lock && h.lock + n <= 127
    ensures Signals(h, n) == Half(h.lock + n, h.waiting)
  {
    if n > 0 {
      SignalsCount(h, n - 1);
    }
  }

  /** All signals of a freshly locked half: the int8_t count wraps, reads as unlocked after 255
      signals, and from then on every signal wakes a task directly. */
  lemma {:induction false} SignalsExactly(w: seq<Task>, n: nat)
    ensures Signals(Half(0, w), n) ==
            if n <= 255 then Half(Int8(n), w) else Half(UNLOCKED, w[Min(n - 255, |w|)..])
  {
    hide Int8;
    if n > 0 {
      SignalsExactly(w, n - 1);
    }
  }

  /** The event list is left alone exactly as long as there are at most 255 signals. */
  lemma LeftAloneExactly(w: seq<Task>, n: nat)
    ensures Signals(Half(0, w), n).waiting == w <==> n <= 255 || w == []
  {
    SignalsExactly(w, n);
  }

  /** How many tasks n signals and the unlocking wake, if that many wait. */
  function Wakes(n: nat): nat {
    if n <= 127 then n else if n <= 255 then 0 else n - 255
  }

  lemma UnlockedExactly(w: seq<Task>, n: nat)
    ensures UnlockHalf(Signals(Half(0, w), n)).waiting == w[Min(Wakes(n), |w|)..]
  {
    hide Signals, Int8;
    SignalsExactly(w, n);
    if n <= 255 {
      assert Int8(n) == if n <= 127 then n else n - 256;
    }
  }

  /** Of the tasks w, the first n have been woken, or all if there were fewer. */
  ghost predicate Served(w: seq<Task>, left: seq<Task>, n: nat) {
    left == w[Min(n, |w|)..]
  }

  /** The count has not wrapped, or so few tasks waited that the direct wakes after it wrapped suffice. */
  predicate Suffices(w: seq<Task>, n: nat) {
    n <= 127 || |w| <= n - 255 || w == []
  }

  /** After unlocking, one task has been woken for every signal exactly if Suffices. */
  lemma WakesExactly(w: seq<Task>, n: nat)
    ensures Served(w, UnlockHalf(Signals(Half(0, w), n)).waiting, n) <==> Suffices(w, n)
  {
    hide Signals, Int8;
    UnlockedExactly(w, n);
    assert |w[Min(Wakes(n), |w|)..]| == |w| - Min(Wakes(n), |w|);
    assert |w[Min(n, |w|)..]| == |w| - Min(n, |w|);
  }

  lemma {:induction false} SignalsAdd(h: Half, p: nat, q: nat)
    ensures Signals(Signals(h, p), q) == Signals(h, p + q)
  {
    if q > 0 {
      SignalsAdd(h, p, q - 1);
    }
  }

  /** The locking task joins the list after p signals, and q more follow.  Once the count has
      wrapped, the signals before the task joined are lost for it. */
  lemma JoinedExactly(w: seq<Task>, t: Task, k: nat, p: nat, q: nat)
    ensures var h := Signals(Half(0, w), p);
            var y := Enter(h.waiting, t, k);
            && h.waiting == w[Min(if p <= 255 then 0 else p - 255, |w|)..]
            && UnlockHalf(Signals(Half(h.lock, y), q)).waiting == y[Min(Wakes(Min(p, 255) + q), |y|)..]
  {
    hide Signals, Enter, UnlockHalf;
    SignalsExactly(w, p);
    var h := Signals(Half(0, w), p);
    var y := Enter(h.waiting, t, k);
    SignalsExactly(y, Min(p, 255));
    assert Half(h.lock, y) == Signals(Half(0, y), Min(p, 255));
    SignalsAdd(Half(0, y), Min(p, 255), q);
    UnlockedExactly(y, Min(p, 255) + q);
  }

  /** One task has been woken per signal, as far as tasks waited, exactly up to 127 signals, or if
      the direct wakes after the wrap reach everyone and one of them came after the task joined. */
  predicate SufficesJoined(w: seq<Task>, p: nat, q: nat) {
    p + q <= 127 || (|w| + 1 <= p + q - 255 && q > 0)
  }

  /** What a window does for the task that joins in it: who is left, when it is woken itself, and
      when one task has been woken per signal. */
  ghost predicate JoinedServed(w: seq<Task>, x: seq<Task>, t: Task, k: nat, left: seq<Task>, p: nat, q: nat) {
    var n := Wakes(Min(p, 255) + q);
    && left == Enter(x, t, k)[Min(n, |x| + 1)..]
    && (t !in left <==> n > Min(k, |x|))
    && (|left| == |w| + 1 - Min(p + q, |w| + 1) <==> SufficesJoined(w, p, q))
  }

  lemma EnterPlaces(w: seq<Task>, t: Task, k: nat, n: nat)
    requires t !in w && n <= |w| + 1
    ensures |Enter(w, t, k)| == |w| + 1
    ensures t !in Enter(w, t, k)[n..] <==> n > Min(k, |w|)
    ensures var y, i := Enter(w, t, k), Min(k, |w|); y[i] == t && y[..i] + y[i + 1..] == w
  {
    var y := Enter(w, t, k);
    var i := Min(k, |w|);
    assert y[..i] == w[..i] && y[i + 1..] == w[i..];
    assert y[i] == t && forall j | 0 <= j < |y| && j != i :: y[j] in w;
    if n <= i {
      assert y[n..][i - n] == t;
    }
  }

  lemma JoinedServedExactly(w: seq<Task>, t: Task, k: nat, p: nat, q: nat)
    requires t !in w
    ensures var h := Signals(Half(0, w), p);
            JoinedServed(w, h.waiting, t, k,
                         UnlockHalf(Signals(Half(h.lock, Enter(h.waiting, t, k)), q)).waiting, p, q)
  {
    hide Signals, Enter, UnlockHalf;
    JoinedExactly(w, t, k, p, q);
    var x := Signals(Half(0, w), p).waiting;
    EnterPlaces(x, t, k, Min(Wakes(Min(p, 255) + q), |x| + 1));
  }

  /** 128 posts in one window wake nobody. */
  lemma WrappedCountLosesWakes(t: Task)
    ensures UnlockHalf(Signals(Half(0, [t]), 128)).waiting == [t]
  {
    SignalsExactly([t], 128);
  }

  // ----- the queue and both halves -----

  /** tx belongs to posts and the tasks waiting to receive, rx to receives and the tasks waiting to send. */
  datatype State = State(items: seq<seq<byte>>, size: nat, length: nat, tx: Half, rx: Half)

  datatype Event =
    | Post(item: seq<byte>, position: Position)   // xQueueGenericSendFromISR
    | Take                                        // xQueueReceiveFromISR
    | WaitToReceive(task: Task, place: nat)       // vTaskPlaceOnEventList, at a place set by priority
    | WaitToSend(task: Task, place: nat)

  predicate Accepts(s: State, e: Event) {
    match e
    case Post(x, p) => Succeeds(s.items, SendTo(x, p), s.length)
    case Take => Succeeds(s.items, ReceiveOne, s.length)
    case _ => false
  }

  function Apply(s: State, e: Event): State {
    match e
    case Post(x, p) =>
      if Accepts(s, e) then s.(items := Stored(s.items, x, p, s.size), tx := Signal(s.tx)) else s
    case Take =>
      if Accepts(s, e) then s.(items := s.items[1..], rx := Signal(s.rx)) else s
    case WaitToReceive(t, k) => s.(tx := s.tx.(waiting := Enter(s.tx.waiting, t, k)))
    case WaitToSend(t, k) => s.(rx := s.rx.(waiting := Enter(s.rx.waiting, t, k)))
  }

  function Run(s: State, es: seq<Event>): State
    decreases |es|
  {
    if |es| == 0 then s else Run(Apply(s, es[0]), es[1..])
  }

  /** Successful posts and receives of a run, and the tasks that entered the lists. */
  datatype Tally = Tally(posts: nat, takes: nat, receivers: multiset<Task>, senders: multiset<Task>)

  function Counts(s: State, es: seq<Event>): Tally
    decreases |es|
  {
    if |es| == 0 then Tally(0, 0, multiset{}, multiset{})
    else
      var c := Counts(Apply(s, es[0]), es[1..]);
      match es[0]
      case Post(_, _) => if Accepts(s, es[0]) then c.(posts := c.posts + 1) else c
      case Take => if Accepts(s, es[0]) then c.(takes := c.takes + 1) else c
      case WaitToReceive(t, _) => c.(receivers := c.receivers + multiset{t})
      case WaitToSend(t, _) => c.(senders := c.senders + multiset{t})
  }

  function Lock(s: State): State {
    s.(tx := LockHalf(s.tx), rx := LockHalf(s.rx))
  }

  function UnlockTx(s: State): State {
    s.(tx := UnlockHalf(s.tx))
  }

  function UnlockRx(s: State): State {
    s.(rx := UnlockHalf(s.rx))
  }

  lemma EnterAdds(w: seq<Task>, t: Task, k: nat)
    ensures multiset(Enter(w, t, k)) == multiset(w) + multiset{t}
  {
    if k <= |w| {
      assert w == w[..k] + w[k..];
    }
  }

  /** From h, whose count stands for i signals, to g: n more signals only counted, up to 255 in all,
      and tasks only joined. */
  ghost predicate Counted(h: Half, g: Half, i: nat, n: nat, joined: multiset<Task>) {
    h.lock == Int8(i) && i + n <= 255 ==>
      g.lock == Int8(i + n) && multiset(g.waiting) == multiset(h.waiting) + joined
  }

  lemma CountedSignal(h: Half, g: Half, i: nat, n: nat, joined: multiset<Task>)
    requires Counted(Signal(h), g, i + 1, n, joined)
    ensures Counted(h, g, i, n + 1, joined)
  {
    hide Int8;
    Int8Next(i);
  }

  lemma CountedEnter(h: Half, g: Half, i: nat, n: nat, joined: multiset<Task>, t: Task, k: nat)
    requires Counted(h.(waiting := Enter(h.waiting, t, k)), g, i, n, joined)
    ensures Counted(h, g, i, n, joined + multiset{t})
  {
    hide Int8, Enter;
    EnterAdds(h.waiting, t, k);
  }

  /** Under every interleaving inside a window of at most 255 posts, the lock count is their
      number as an int8_t and the interrupt handlers take no receiver off its event list, while
      tasks may join it; likewise for receives. */
  lemma {:induction false} WindowCounts(s: State, es: seq<Event>, i: nat, j: nat)
    ensures var u, c := Run(s, es), Counts(s, es);
            && Counted(s.tx, u.tx, i, c.posts, c.receivers)
            && Counted(s.rx, u.rx, j, c.takes, c.senders)
    decreases |es|
  {
    hide Stored, Enter, Signal;
    if |es| > 0 {
      hide Counted;
      var m, e := Apply(s, es[0]), es[0];
      var u, c := Run(m, es[1..]), Counts(m, es[1..]);
      var p, q := if e.Post? && Accepts(s, e) then 1 else 0, if e.Take? && Accepts(s, e) then 1 else 0;
      WindowCounts(m, es[1..], i + p, j + q);
      match e
      case Post(_, _) => if p == 1 { CountedSignal(s.tx, u.tx, i, c.posts, c.receivers); }
      case Take => if q == 1 { CountedSignal(s.rx, u.rx, j, c.takes, c.senders); }
      case WaitToReceive(t, k) => CountedEnter(s.tx, u.tx, i, c.posts, c.receivers, t, k);
      case WaitToSend(t, k) => CountedEnter(s.rx, u.rx, j, c.takes, c.senders, t, k);
    }
  }

  lemma RunNone(s: State)
    ensures Run(s, []) == s && Counts(s, []).posts == Counts(s, []).takes == 0
  {
  }

  lemma RunOne(s: State, es: seq<Event>)
    requires |es| > 0
    ensures Run(s, es) == Run(Apply(s, es[0]), es[1..])
    ensures var c, d := Counts(s, es), Counts(Apply(s, es[0]), es[1..]);
            && c.posts == d.posts + (if es[0].Post? && Accepts(s, es[0]) then 1 else 0)
            && c.takes == d.takes + (if es[0].Take? && Accepts(s, es[0]) then 1 else 0)
  {
  }

  predicate Interrupts(es: seq<Event>) {
    forall k | 0 <= k < |es| :: es[k].Post? || es[k].Take?
  }

  /** Without an upper bound: interrupt handlers signal each half once per successful call. */
  lemma {:induction false} InterruptsSignal(s: State, es: seq<Event>, i: nat, j: nat, h: Half, g: Half)
    requires Interrupts(es)
    requires s.tx == Signals(h, i) && s.rx == Signals(g, j)
    ensures var u, c := Run(s, es), Counts(s, es);
            u.tx == Signals(h, i + c.posts) && u.rx == Signals(g, j + c.takes)
    decreases |es|
  {
    hide Signals, Signal, Stored, Run, Counts;
    if |es| == 0 {
      assert es == [];
      RunNone(s);
    } else {
      RunOne(s, es);
      OneMore(h, i);
      OneMore(g, j);
      var p, q := if es[0].Post? && Accepts(s, es[0]) then 1 else 0, if es[0].Take? && Accepts(s, es[0]) then 1 else 0;
      InterruptsSignal(Apply(s, es[0]), es[1..], i + p, j + q, h, g);
    }
  }

  /** A window in which the locking task does not block.  Interrupts come in while the queue is
      locked (es) and between the two critical sections of unlocking (fs).  Each half of unlocking
      has then woken one receiver per post, respectively one sender per receive, exactly under the
      bounds of Suffices. */
  lemma WindowWakesExactly(s: State, es: seq<Event>, fs: seq<Event>)
    requires s.tx.lock == UNLOCKED && s.rx.lock == UNLOCKED
    requires Interrupts(es) && Interrupts(fs)
    ensures var l := Lock(s);
            var u := UnlockTx(Run(l, es));
            var v := UnlockRx(Run(u, fs));
            var posts, takes := Counts(l, es).posts, Counts(l, es).takes + Counts(u, fs).takes;
            && (Served(s.tx.waiting, u.tx.waiting, posts) <==> Suffices(s.tx.waiting, posts))
            && (Served(s.rx.waiting, v.rx.waiting, takes) <==> Suffices(s.rx.waiting, takes))
  {
    hide Run, Counts, Signals, UnlockHalf, Served, Suffices;
    var l := Lock(s);
    var h, g := Half(0, s.tx.waiting), Half(0, s.rx.waiting);
    var c := Counts(l, es);
    NoSignals(h);
    NoSignals(g);
    InterruptsSignal(l, es, 0, 0, h, g);
    var u := UnlockTx(Run(l, es));
    NoSignals(u.tx);
    InterruptsSignal(u, fs, 0, c.takes, u.tx, g);
    WakesExactly(s.tx.waiting, c.posts);
    WakesExactly(s.rx.waiting, c.takes + Counts(u, fs).takes);
  }

  /** A second lock keeps what has been counted since the first, exactly up to 254 signals. */
  lemma SecondLockKeepsCount(w: seq<Task>, n: nat)
    ensures LockHalf(Signals(Half(0, w), n)) == Signals(Half(0, w), n) <==> n < 255
  {
    hide Signals, Int8;
    SignalsExactly(w, n);
    assert n < 255 ==> Int8(n) == if n <= 127 then n else n - 256;
    assert n == 255 ==> Int8(n) == -1;
  }

  /** What an event does to the items of the queue. */
  function OnItems(e: Event): seq<Op> {
    match e
    case Post(x, p) => [SendTo(x, p)]
    case Take => [ReceiveOne]
    case _ => []
  }

  function OnItemsAll(es: seq<Event>): seq<Op>
    decreases |es|
  {
    if |es| == 0 then [] else OnItems(es[0]) + OnItemsAll(es[1..])
  }

  /** Locked or not, and whoever waits, posts and receives from interrupts work on the items as sends
      and receives do: what a run leaves is what that run of sends and receives leaves. */
  lemma {:induction false} ItemsFollow(s: State, es: seq<Event>)
    ensures Run(s, es).items == QueueRing.Run(s.items, OnItemsAll(es), s.length, s.size)
    ensures Run(s, es).length == s.length && Run(s, es).size == s.size
    decreases |es|
  {
    hide Stored, Signal, Enter;
    if |es| > 0 {
      var op := OnItems(es[0]);
      ItemsFollow(Apply(s, es[0]), es[1..]);
      if op == [] {
        assert op + OnItemsAll(es[1..]) == OnItemsAll(es[1..]);
      } else {
        assert (op + OnItemsAll(es[1..]))[0] == op[0] && (op + OnItemsAll(es[1..]))[1..] == OnItemsAll(es[1..]);
      }
    }
  }

  // ----- no lost wake-up -----

  lemma {:induction false} CountsConcat(s: State, a: seq<Event>, b: seq<Event>)
    ensures Run(s, a + b) == Run(Run(s, a), b)
    ensures Counts(s, a + b).posts == Counts(s, a).posts + Counts(Run(s, a), b).posts
    ensures Counts(s, a + b).takes == Counts(s, a).takes + Counts(Run(s, a), b).takes
    decreases |a|
  {
    if |a| == 0 {
      assert a + b == b;
    } else {
      assert (a + b)[0] == a[0] && (a + b)[1..] == a[1..] + b;
      CountsConcat(Apply(s, a[0]), a[1..], b);
    }
  }

  /** Only posts add items, only receives remove them. */
  lemma {:induction false} ItemsBounded(s: State, es: seq<Event>)
    ensures |Run(s, es).items| <= |s.items| + Counts(s, es).posts
    ensures |Run(s, es).items| >= |s.items| - Counts(s, es).takes
    decreases |es|
  {
    if |es| > 0 {
      ItemsBounded(Apply(s, es[0]), es[1..]);
    }
  }

  /** A window in which the locking task joins an event list; interrupts come in before and after. */
  lemma JoiningRun(s: State, a: seq<Event>, e: Event, b: seq<Event>)
    requires Interrupts(a) && Interrupts(b)
    ensures var m := Run(s, a);
            var n := Apply(m, e);
            var u := Run(s, a + [e] + b);
            && u == Run(n, b)
            && m.tx == Signals(s.tx, Counts(s, a).posts) && u.tx == Signals(n.tx, Counts(n, b).posts)
            && m.rx == Signals(s.rx, Counts(s, a).takes) && u.rx == Signals(n.rx, Counts(n, b).takes)
  {
    hide Signals, Apply, Counts, Run;
    NoSignals(s.tx);
    NoSignals(s.rx);
    InterruptsSignal(s, a, 0, 0, s.tx, s.rx);
    var n := Apply(Run(s, a), e);
    NoSignals(n.tx);
    NoSignals(n.rx);
    InterruptsSignal(n, b, 0, 0, n.tx, n.rx);
    assert a + [e] + b == a + ([e] + b);
    CountsConcat(s, a, [e] + b);
    RunOne(Run(s, a), [e] + b);
    assert ([e] + b)[1..] == b;
  }

  /** A receiver locks the queue, joins the event list and unlocks, with p posts before it joins
      and q after, without any bound on them.  Who is left, whether the receiver has been woken, and
      whether one task has been woken per post follow exactly. */
  lemma BlockedReceiverExactly(s: State, a: seq<Event>, t: Task, k: nat, b: seq<Event>)
    requires s.tx.lock == UNLOCKED && t !in s.tx.waiting && Interrupts(a) && Interrupts(b)
    ensures var l := Lock(s);
            var m := Run(l, a);
            var u := UnlockTx(Run(l, a + [WaitToReceive(t, k)] + b));
            JoinedServed(s.tx.waiting, m.tx.waiting, t, k, u.tx.waiting,
                         Counts(l, a).posts, Counts(Apply(m, WaitToReceive(t, k)), b).posts)
  {
    hide Signals, Counts, Run, JoinedServed, Enter, UnlockHalf;
    var l, e := Lock(s), WaitToReceive(t, k);
    JoiningRun(l, a, e, b);
    JoinedServedExactly(s.tx.waiting, t, k, Counts(l, a).posts, Counts(Apply(Run(l, a), e), b).posts);
  }

  /** The same for a sender; the receives between the two halves of unlocking (fs) count as well. */
  lemma BlockedSenderExactly(s: State, a: seq<Event>, t: Task, k: nat, b: seq<Event>, fs: seq<Event>)
    requires s.rx.lock == UNLOCKED && t !in s.rx.waiting && Interrupts(a) && Interrupts(b) && Interrupts(fs)
    ensures var l := Lock(s);
            var m := Run(l, a);
            var u := UnlockTx(Run(l, a + [WaitToSend(t, k)] + b));
            var v := UnlockRx(Run(u, fs));
            JoinedServed(s.rx.waiting, m.rx.waiting, t, k, v.rx.waiting, Counts(l, a).takes,
                         Counts(Apply(m, WaitToSend(t, k)), b).takes + Counts(u, fs).takes)
  {
    hide Signals, Counts, Run, JoinedServed, Enter, UnlockHalf;
    var l, e := Lock(s), WaitToSend(t, k);
    JoiningRun(l, a, e, b);
    var n := Apply(Run(l, a), e);
    var u := UnlockTx(Run(l, a + [e] + b));
    NoSignals(u.tx);
    InterruptsSignal(u, fs, 0, Counts(n, b).takes, u.tx, n.rx);
    JoinedServedExactly(s.rx.waiting, t, k, Counts(l, a).takes, Counts(n, b).takes + Counts(u, fs).takes);
  }

  function Posts(k: nat): seq<Event> {
    if k == 0 then [] else [Post([], ToBack)] + Posts(k - 1)
  }

  lemma {:induction false} PostsAccepted(s: State, k: nat)
    requires |s.items| + k <= s.length
    ensures Interrupts(Posts(k)) && Counts(s, Posts(k)).posts == k && |Run(s, Posts(k)).items| == |s.items| + k
    decreases k
  {
    if k > 0 {
      var m := Apply(s, Post([], ToBack));
      PostsAccepted(m, k - 1);
      assert Posts(k)[1..] == Posts(k - 1);
      RunOne(s, Posts(k));
    }
  }

  /** The input that shows it: a receiver blocks on an empty queue, 128 posts follow before it
      unlocks, and it stays blocked beside 128 items. */
  lemma BlockedReceiverMissesWake(t: Task)
    ensures var s := State([], 0, 128, Half(UNLOCKED, []), Half(UNLOCKED, []));
            var u := UnlockTx(Run(Lock(s), [WaitToReceive(t, 0)] + Posts(128)));
            u.tx.waiting == [t] && |u.items| == 128
  {
    var s := State([], 0, 128, Half(UNLOCKED, []), Half(UNLOCKED, []));
    var l, e := Lock(s), WaitToReceive(t, 0);
    var m := Apply(l, e);
    PostsAccepted(m, 128);
    hide Signals, Counts, Run, Enter, UnlockHalf, Posts;
    RunNone(l);
    assert [] + [e] + Posts(128) == [e] + Posts(128);
    BlockedReceiverExactly(s, [], t, 0, Posts(128));
    RunOne(l, [e] + Posts(128));
    assert ([e] + Posts(128))[1..] == Posts(128);
  }

  /** In any window of at most 255 posts, whoever joins the lists and whenever, unlocking wakes one
      receiver per post exactly if the count has not wrapped or nobody waits. */
  lemma WindowOwesExactly(s: State, es: seq<Event>)
    requires s.tx.lock == UNLOCKED && Counts(Lock(s), es).posts <= 255
    ensures var u, n := Run(Lock(s), es), Counts(Lock(s), es).posts;
            Owed(u.tx) == Min(n, |u.tx.waiting|) <==> n <= 127 || u.tx.waiting == []
  {
    hide Run, Counts;
    var n := Counts(Lock(s), es).posts;
    WindowCounts(Lock(s), es, 0, 0);
    assert n > 127 ==> Int8(n) < 0;
  }

  /** The same for senders and receives, those between the two halves of unlocking (fs) included. */
  lemma WindowOwesSendersExactly(s: State, es: seq<Event>, fs: seq<Event>)
    requires s.rx.lock == UNLOCKED
    requires Counts(Lock(s), es).takes + Counts(UnlockTx(Run(Lock(s), es)), fs).takes <= 255
    ensures var u := UnlockTx(Run(Lock(s), es));
            var w, n := Run(u, fs), Counts(Lock(s), es).takes + Counts(u, fs).takes;
            Owed(w.rx) == Min(n, |w.rx.waiting|) <==> n <= 127 || w.rx.waiting == []
  {
    hide Run, Counts;
    var c, u := Counts(Lock(s), es).takes, UnlockTx(Run(Lock(s), es));
    var n := c + Counts(u, fs).takes;
    WindowCounts(Lock(s), es, 0, 0);
    WindowCounts(u, fs, 0, c);
    assert n > 127 ==> Int8(n) < 0;
  }

  /** A receiver locks the queue, later sees it empty, later still joins the event list, and
      unlocks; interrupts come in at any point, with at most 255 posts.  Either nobody is left
      waiting or at least as many were woken as there are items, exactly if the count has not
      wrapped, or nobody waits, or no item is left. */
  lemma NoPostMissed(s: State, before: seq<Event>, after: seq<Event>)
    requires s.tx.lock == UNLOCKED
    requires Run(Lock(s), before).items == []
    requires Counts(Lock(s), before + after).posts <= 255
    ensures var u := Run(Lock(s), before + after);
            var v := UnlockTx(u);
            var n := Counts(Lock(s), before + after).posts;
            && v.tx.waiting == u.tx.waiting[Owed(u.tx)..]
            && (v.tx.waiting == [] || Owed(u.tx) >= |v.items| <==> n <= 127 || u.tx.waiting == [] || v.items == [])
  {
    hide Run, Counts;
    var n := Counts(Lock(s), before + after).posts;
    CountsConcat(Lock(s), before, after);
    WindowCounts(Lock(s), before + after, 0, 0);
    ItemsBounded(Run(Lock(s), before), after);
    assert n > 127 ==> Int8(n) < 0;
  }

  /** The same for a sender that sees the queue full.  The second half of unlocking also answers
      for the receives that came in after the first half. */
  lemma NoReceiveMissed(s: State, before: seq<Event>, after: seq<Event>, between: seq<Event>)
    requires s.rx.lock == UNLOCKED
    requires |Run(Lock(s), before).items| == s.length
    requires var u := Run(Lock(s), before + after);
             Counts(Lock(s), before + after).takes + Counts(UnlockTx(u), between).takes <= 255
    ensures var u := Run(Lock(s), before + after);
            var w := Run(UnlockTx(u), between);
            var v := UnlockRx(w);
            var n := Counts(Lock(s), before + after).takes + Counts(UnlockTx(u), between).takes;
            && v.rx.waiting == w.rx.waiting[Owed(w.rx)..]
            && (v.rx.waiting == [] || Owed(w.rx) >= s.length - |v.items|
                <==> n <= 127 || w.rx.waiting == [] || |v.items| >= s.length)
  {
    hide Run, Counts;
    var u := Run(Lock(s), before + after);
    var c := Counts(Lock(s), before + after).takes;
    var n := c + Counts(UnlockTx(u), between).takes;
    CountsConcat(Lock(s), before, after);
    WindowCounts(Lock(s), before + after, 0, 0);
    ItemsBounded(Run(Lock(s), before), after);
    WindowCounts(UnlockTx(u), between, 0, c);
    ItemsBounded(UnlockTx(u), between);
    assert n > 127 ==> Int8(n) < 0;
  }

  // ----- the queue with its lock counts and event lists -----

  /** The counts and lists of Queue_t; ready collects the tasks taken off an event list
      (xTaskRemoveFromEventList takes the head), in order. */
  class LockedQueue {
    const queue: Queue
    var cRxLock: int8
    var cTxLock: int8
    var xTasksWaitingToSend: seq<Task>
    var xTasksWaitingToReceive: seq<Task>
    var ready: seq<Task>

    ghost predicate Valid()
      reads this, queue, queue.pcHead
    {
      queue.Valid()
    }

    ghost function Value(): State
      reads this, queue
    {
      State(queue.items, queue.uxItemSize, queue.uxLength,
                       Half(cTxLock, xTasksWaitingToReceive), Half(cRxLock, xTasksWaitingToSend))
    }

    /** xQueueGenericCreate. */
    constructor (uxQueueLength: nat, uxItemSize: nat)
      requires 0 < uxQueueLength
      ensures Valid() && fresh(queue) && fresh(queue.pcHead) && ready == []
      ensures Value() == State([], uxItemSize, uxQueueLength, Half(UNLOCKED, []), Half(UNLOCKED, []))
    {
      queue := new Queue(uxQueueLength, uxItemSize);
      cRxLock, cTxLock := UNLOCKED, UNLOCKED;
      xTasksWaitingToSend, xTasksWaitingToReceive, ready := [], [], [];
    }

    /** xQueueGenericReset of a queue in use: one sender is woken, receivers stay blocked. */
    method Reset()
      requires Valid()
      modifies this, queue
      ensures Valid() && Value() == old(Value()).(items := [], tx := Half(UNLOCKED, old(xTasksWaitingToReceive)),
                                                  rx := Signal(Half(UNLOCKED, old(xTasksWaitingToSend))))
      ensures ready + xTasksWaitingToSend == old(ready + xTasksWaitingToSend)
    {
      queue.Reset();
      cRxLock, cTxLock := UNLOCKED, UNLOCKED;
      if xTasksWaitingToSend != [] {
        WakeSender();
      }
    }

    method WakeReceiver()
      requires xTasksWaitingToReceive != []
      modifies this`xTasksWaitingToReceive, this`ready
      ensures xTasksWaitingToReceive == old(xTasksWaitingToReceive)[1..]
      ensures ready == old(ready) + [old(xTasksWaitingToReceive)[0]]
    {
      ready := ready + [xTasksWaitingToReceive[0]];
      xTasksWaitingToReceive := xTasksWaitingToReceive[1..];
    }

    method WakeSender()
      requires xTasksWaitingToSend != []
      modifies this`xTasksWaitingToSend, this`ready
      ensures xTasksWaitingToSend == old(xTasksWaitingToSend)[1..]
      ensures ready == old(ready) + [old(xTasksWaitingToSend)[0]]
    {
      ready := ready + [xTasksWaitingToSend[0]];
      xTasksWaitingToSend := xTasksWaitingToSend[1..];
    }

    /** prvLockQueue. */
    method LockQueue()
      modifies this`cRxLock, this`cTxLock
      ensures Value() == Lock(old(Value()))
    {
      if cRxLock == UNLOCKED {
        cRxLock := LOCKED_UNMODIFIED;
      }
      if cTxLock == UNLOCKED {
        cTxLock := LOCKED_UNMODIFIED;
      }
    }

    /** xQueueGenericSendFromISR. */
    method SendFromISR(item: seq<byte>, xPosition: Position) returns (pass: bool)
      requires Valid() && |item| == queue.uxItemSize && (xPosition.Overwrite? ==> queue.uxLength == 1)
      modifies this, queue, queue.pcHead
      ensures Valid() && Value() == Apply(old(Value()), Post(item, xPosition))
      ensures pass == Accepts(old(Value()), Post(item, xPosition))
      ensures ready + xTasksWaitingToReceive == old(ready + xTasksWaitingToReceive)
    {
      pass := queue.uxMessagesWaiting < queue.uxLength || xPosition.Overwrite?;
      if pass {
        var lock := cTxLock;
        queue.CopyDataToQueue(item, xPosition);
        if lock == UNLOCKED {
          if xTasksWaitingToReceive != [] {
            WakeReceiver();
          }
        } else {
          cTxLock := Int8(lock as int + 1);
        }
      }
    }

    /** xQueueReceiveFromISR. */
    method ReceiveFromISR() returns (item: Option<seq<byte>>)
      requires Valid()
      modifies this, queue
      ensures Valid() && Value() == Apply(old(Value()), Take)
      ensures item == if Accepts(old(Value()), Take) then Some(old(queue.items)[0]) else None
      ensures ready + xTasksWaitingToSend == old(ready + xTasksWaitingToSend)
    {
      var lock := cRxLock;
      item := queue.Receive();
      if item.Some? {
        if lock == UNLOCKED {
          if xTasksWaitingToSend != [] {
            WakeSender();
          }
        } else {
          cRxLock := Int8(lock as int + 1);
        }
      }
    }

    /** The first critical section of prvUnlockQueue. */
    method UnlockTxHalf()
      modifies this`cTxLock, this`xTasksWaitingToReceive, this`ready
      ensures Value() == UnlockTx(old(Value()))
      ensures ready == old(ready) + old(xTasksWaitingToReceive)[..Owed(old(Value()).tx)]
    {
      var lock, k := cTxLock as int, 0;
      ghost var waiting := xTasksWaitingToReceive;
      while lock > 0 && xTasksWaitingToReceive != []
        invariant 0 <= k <= |waiting| && lock + k == cTxLock && (lock >= 0 || k == 0)
        invariant xTasksWaitingToReceive == waiting[k..]
        invariant ready == old(ready) + waiting[..k]
        invariant Value().items == old(Value()).items && cTxLock == old(cTxLock)
      {
        WakeReceiver();
        lock, k := lock - 1, k + 1;
      }
      cTxLock := UNLOCKED;
    }

    /** The second critical section of prvUnlockQueue. */
    method UnlockRxHalf()
      modifies this`cRxLock, this`xTasksWaitingToSend, this`ready
      ensures Value() == UnlockRx(old(Value()))
      ensures ready == old(ready) + old(xTasksWaitingToSend)[..Owed(old(Value()).rx)]
    {
      var lock, k := cRxLock as int, 0;
      ghost var waiting := xTasksWaitingToSend;
      while lock > 0 && xTasksWaitingToSend != []
        invariant 0 <= k <= |waiting| && lock + k == cRxLock && (lock >= 0 || k == 0)
        invariant xTasksWaitingToSend == waiting[k..]
        invariant ready == old(ready) + waiting[..k]
        invariant Value().items == old(Value()).items && cRxLock == old(cRxLock)
      {
        WakeSender();
        lock, k := lock - 1, k + 1;
      }
      cRxLock := UNLOCKED;
    }

    /** prvUnlockQueue when no interrupt comes in between its critical sections. */
    method UnlockQueue()
      modifies this
      ensures Value() == UnlockRx(UnlockTx(old(Value())))
      ensures ready == old(ready) + old(xTasksWaitingToReceive)[..Owed(old(Value()).tx)]
                                  + old(xTasksWaitingToSend)[..Owed(old(Value()).rx)]
    {
      UnlockTxHalf();
      UnlockRxHalf();
    }

    /** vTaskPlaceOnEventList for a receiver; its priority decides the place. */
    method PlaceReceiver(task: Task, place: nat)
      modifies this`xTasksWaitingToReceive
      ensures Value() == Apply(old(Value()), WaitToReceive(task, place))
    {
      xTasksWaitingToReceive := Enter(xTasksWaitingToReceive, task, place);
    }

    /** vTaskPlaceOnEventList for a sender. */
    method PlaceSender(task: Task, place: nat)
      modifies this`xTasksWaitingToSend
      ensures Value() == Apply(old(Value()), WaitToSend(task, place))
    {
      xTasksWaitingToSend := Enter(xTasksWaitingToSend, task, place);
    }
  }
}
