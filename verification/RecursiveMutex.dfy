/** Recursive mutexes of tests/FreeRTOS/queue.c.  The calls of several tasks interleave between
 *  the critical sections and the single reads and writes outside them. */
module RecursiveMutex {
  import opened Wrappers

  type Task = nat

  const WORD := 0x1_0000_0000

  type word = x: int | 0 <= x < WORD

  /** The members of Queue_t that a mutex uses; its queue has length 1 and items of size 0. */
  datatype Mutex = Mutex(uxMessagesWaiting: nat, xMutexHolder: Option<Task>, uxRecursiveCallCount: word)

  /** The critical section of xQueueSemaphoreTake. */
  function SemaphoreTaken(m: Mutex, t: Task): Mutex {
    if m.uxMessagesWaiting > 0 then m.(uxMessagesWaiting := m.uxMessagesWaiting - 1, xMutexHolder := Some(t)) else m
  }

  /** The critical section of xQueueGenericSend. */
  function Sent(m: Mutex): Mutex {
    if m.uxMessagesWaiting < 1 then m.(uxMessagesWaiting := m.uxMessagesWaiting + 1, xMutexHolder := None) else m
  }

  function Incremented(m: Mutex): Mutex {
    m.(uxRecursiveCallCount := (m.uxRecursiveCallCount + 1) % WORD)
  }

  function Decremented(m: Mutex): Mutex {
    m.(uxRecursiveCallCount := (m.uxRecursiveCallCount - 1) % WORD)
  }

  // ----- all interleavings of the calls of several tasks -----

  /** Where a task is in its call. */
  datatype Pc =
    | Idle         // in no call
    | Taking       // saw another holder or none, waits in xQueueSemaphoreTake
    | Taken        // obtained the mutex, has not counted it yet
    | Retaking     // saw itself as the holder, about to count once more
    | Giving       // saw itself as the holder, about to count down
    | Returning    // counted down to 0, about to send

  /** How often each task's calls have succeeded so far, beside the mutex and the tasks' places. */
  datatype System = System(m: Mutex, pc: seq<Pc>, takes: seq<nat>, gives: seq<nat>)

  datatype Event =
    | Take(t: Task)      // calls xQueueTakeMutexRecursive and tests the holder
    | Give(t: Task)      // calls xQueueGiveMutexRecursive and tests the holder
    | Proceed(t: Task)   // does the next access of its call
    | GiveUp(t: Task)    // its block time has expired with the mutex still taken

  predicate Shaped(s: System) {
    |s.takes| == |s.pc| && |s.gives| == |s.pc|
  }

  function At(s: System, t: Task, p: Pc): System
    requires t < |s.pc|
  {
    s.(pc := s.pc[t := p])
  }

  function Step(s: System, e: Event): (r: System)
    requires Shaped(s)
    ensures Shaped(r) && |r.pc| == |s.pc|
  {
    var t, m := e.t, s.m;
    if t >= |s.pc| then s
    else
      match e
      case Take(_) =>
        if s.pc[t] != Idle then s
        else At(s, t, if m.xMutexHolder == Some(t) then Retaking else Taking)
      case Give(_) =>
        if s.pc[t] != Idle then s
        else if m.xMutexHolder == Some(t) then At(s, t, Giving) else s
      case GiveUp(_) =>
        if s.pc[t] == Taking && m.uxMessagesWaiting == 0 then At(s, t, Idle) else s
      case Proceed(_) =>
        match s.pc[t]
        case Idle => s
        case Taking =>
          if m.uxMessagesWaiting > 0 then At(s, t, Taken).(m := SemaphoreTaken(m, t)) else s
        case Giving =>
          var d := Decremented(m);
          At(s, t, if d.uxRecursiveCallCount == 0 then Returning else Idle)
            .(m := d, gives := s.gives[t := s.gives[t] + 1])
        case Returning => At(s, t, Idle).(m := Sent(m))
        case _ => At(s, t, Idle).(m := Incremented(m), takes := s.takes[t := s.takes[t] + 1])
  }

  function Run(s: System, es: seq<Event>): (r: System)
    requires Shaped(s)
    ensures Shaped(r) && |r.pc| == |s.pc|
  {
    if |es| == 0 then s else Step(Run(s, es[..|es| - 1]), es[|es| - 1])
  }

  /** prvInitialiseMutex has run and no task has called yet. */
  function Initial(tasks: nat): System {
    System(Mutex(1, None, 0), seq(tasks, _ => Idle), seq(tasks, _ => 0), seq(tasks, _ => 0))
  }

  // ----- what every interleaving keeps -----

  function Nesting(s: System, t: Task): int
    requires Shaped(s) && t < |s.pc|
  {
    s.takes[t] as int - s.gives[t]
  }

  /** A task that does not hold the mutex touches nothing and has given as often as it has taken. */
  ghost predicate Outside(s: System, t: Task)
    requires Shaped(s) && t < |s.pc|
  {
    (s.pc[t].Idle? || s.pc[t].Taking?) && Nesting(s, t) == 0
  }

  /** The holder's nesting is the count, and is 0 only while it obtains or returns the mutex. */
  ghost predicate Inside(s: System, t: Task)
    requires Shaped(s) && t < |s.pc|
  {
    && !s.pc[t].Taking? && s.m.uxRecursiveCallCount == Nesting(s, t)
    && (s.pc[t].Taken? || s.pc[t].Returning? <==> s.m.uxRecursiveCallCount == 0)
  }

  ghost predicate Inv(s: System)
    requires Shaped(s)
  {
    && (forall t | 0 <= t < |s.pc| && s.m.xMutexHolder != Some(t) :: Outside(s, t))
    && match s.m.xMutexHolder
       case None => s.m.uxMessagesWaiting == 1 && s.m.uxRecursiveCallCount == 0
       case Some(h) => s.m.uxMessagesWaiting == 0 && h < |s.pc| && Inside(s, h)
  }

  /** A task counts a further take with the 32-bit count already at its maximum. */
  predicate Overflows(s: System, e: Event)
    requires Shaped(s)
  {
    e.Proceed? && e.t < |s.pc| && s.pc[e.t].Retaking? && s.m.uxRecursiveCallCount == WORD - 1
  }

  /** Every access keeps the invariant, except exactly the one that wraps the count. */
  lemma StepExactly(s: System, e: Event)
    requires Shaped(s) && Inv(s)
    ensures Inv(Step(s, e)) <==> !Overflows(s, e)
  {
    var r := Step(s, e);
    if Overflows(s, e) {
      assert s.m.xMutexHolder == Some(e.t) by {
        assert !Outside(s, e.t);
      }
      assert r.m.uxRecursiveCallCount == 0;
      assert !Inside(r, e.t);
    } else if e.t < |s.pc| && s.m.xMutexHolder != Some(e.t) {
      assert Outside(s, e.t);
    }
  }

  lemma {:induction false} InitialInv(tasks: nat)
    ensures Shaped(Initial(tasks)) && Inv(Initial(tasks))
  {
    var s := Initial(tasks);
    forall t | 0 <= t < tasks
      ensures Outside(s, t)
    {
    }
  }

  ghost predicate Deep(s: System)
    requires Shaped(s)
  {
    exists t | 0 <= t < |s.pc| :: Nesting(s, t) >= 0x1_0000_0000
  }

  lemma InvIsNotDeep(s: System)
    requires Shaped(s) && Inv(s)
    ensures !Deep(s)
  {
    forall t | 0 <= t < |s.pc|
      ensures Nesting(s, t) < WORD
    {
      if s.m.xMutexHolder != Some(t) {
        assert Outside(s, t);
      }
    }
  }

  lemma WrapIsDeep(s: System, e: Event)
    requires Shaped(s) && Inv(s) && Overflows(s, e)
    ensures Deep(Step(s, e))
  {
    WrapBreaksBoundary(s, e);
    assert Nesting(Step(s, e), e.t) >= WORD;
  }

  /** Over whole runs: the invariant holds throughout exactly if no task ever nests 2^32 deep. */
  lemma {:induction false} RunExactly(s: System, es: seq<Event>)
    requires Shaped(s) && Inv(s)
    ensures (forall i | 0 <= i <= |es| :: Inv(Run(s, es[..i])))
       <==> (forall i | 0 <= i <= |es| :: !Deep(Run(s, es[..i])))
    decreases |es|
  {
    hide Step, Inv, Overflows, Deep;
    assert es[..|es|] == es;
    if |es| == 0 {
      assert Run(s, []) == s;
      InvIsNotDeep(s);
    } else {
      var n := |es| - 1;
      var front := es[..n];
      RunExactly(s, front);
      assert forall i | 0 <= i <= n :: front[..i] == es[..i];
      LastStep(s, es);
    }
  }

  lemma LastStep(s: System, es: seq<Event>)
    requires Shaped(s) && |es| > 0
    ensures Inv(Run(s, es[..|es| - 1])) ==> (Inv(Run(s, es)) <==> !Deep(Run(s, es)))
  {
    hide Step, Inv, Overflows, Deep;
    var u, e := Run(s, es[..|es| - 1]), es[|es| - 1];
    if Inv(u) {
      StepExactly(u, e);
      if Overflows(u, e) {
        WrapIsDeep(u, e);
      } else {
        InvIsNotDeep(Step(u, e));
      }
    }
  }

  /** At a call boundary (t in no call, nor the holder): one message iff no holder iff count 0;
      otherwise the count is the holder's takes minus gives, which no other task has any of. */
  lemma BoundaryState(s: System)
    requires Shaped(s) && Inv(s)
    requires forall h | s.m.xMutexHolder == Some(h) && h < |s.pc| :: s.pc[h].Idle?
    ensures s.m.uxMessagesWaiting == 1 <==> s.m.xMutexHolder == None
    ensures s.m.xMutexHolder == None <==> s.m.uxRecursiveCallCount == 0
    ensures forall t | 0 <= t < |s.pc| ::
              Nesting(s, t) == if s.m.xMutexHolder == Some(t) then s.m.uxRecursiveCallCount else 0
  {
    forall t | 0 <= t < |s.pc|
      ensures Nesting(s, t) == if s.m.xMutexHolder == Some(t) then s.m.uxRecursiveCallCount else 0
    {
      if s.m.xMutexHolder != Some(t) {
        assert Outside(s, t);
      }
    }
  }

  /** After the wrap the mutex is still held, with count 0 and a nesting of 2^32. */
  lemma WrapBreaksBoundary(s: System, e: Event)
    requires Shaped(s) && Inv(s) && Overflows(s, e)
    ensures var r := Step(s, e);
            && r.pc[e.t].Idle? && r.m.xMutexHolder == Some(e.t) && r.m.uxMessagesWaiting == 0
            && r.m.uxRecursiveCallCount == 0 && Nesting(r, e.t) == 0x1_0000_0000
  {
    assert s.m.xMutexHolder == Some(e.t) by {
      assert !Outside(s, e.t);
    }
  }

  /** At most one task has taken more often than given, and only it touches the count. */
  lemma MutualExclusion(s: System, t: Task, u: Task)
    requires Shaped(s) && Inv(s) && t < |s.pc| && u < |s.pc|
    requires !Outside(s, t) && !Outside(s, u)
    ensures t == u && s.m.xMutexHolder == Some(t)
  {
  }

  /** The give of a task that does not hold the mutex changes nothing, wherever the others are. */
  lemma OthersGiveNothing(s: System, u: Task, e: Event)
    requires Shaped(s) && Inv(s) && u < |s.pc| && s.m.xMutexHolder != Some(u) && !s.pc[u].Taking?
    requires e in [Give(u), Proceed(u), GiveUp(u)]
    ensures Step(s, e) == s
  {
    assert Outside(s, u);
  }

  /** What task t does cannot change whether, or how deep, another task holds the mutex. */
  lemma HolderUndisturbed(s: System, h: Task, e: Event)
    requires Shaped(s) && Inv(s) && s.m.xMutexHolder == Some(h) && e.t != h
    ensures Step(s, e).m == s.m && Nesting(Step(s, e), h) == Nesting(s, h)
  {
    if e.t < |s.pc| {
      assert Outside(s, e.t);
    }
  }

  // ----- the wrap can be reached -----

  function NestedTakes(n: nat): seq<Event> {
    if n == 0 then [] else NestedTakes(n - 1) + [Take(0), Proceed(0), Proceed(0)]
  }

  lemma RunOn(s: System, es: seq<Event>, e: Event)
    requires Shaped(s)
    ensures Run(s, es + [e]) == Step(Run(s, es), e)
  {
    hide Step;
    assert (es + [e])[..|es|] == es;
  }

  lemma RunThree(s: System, es: seq<Event>, a: Event, b: Event, c: Event)
    requires Shaped(s)
    ensures Run(s, es + [a, b, c]) == Step(Step(Step(Run(s, es), a), b), c)
  {
    hide Step, Run;
    RunOn(s, es, a);
    RunOn(s, es + [a], b);
    RunOn(s, es + [a] + [b], c);
    assert es + [a] + [b] + [c] == es + [a, b, c];
  }

  /** One task that has taken the mutex n times. */
  function Nested(n: nat): System {
    System(Mutex(0, Some(0), n % WORD), [Idle], [n], [0])
  }

  lemma FirstTake()
    ensures var s := System(Mutex(1, None, 0), [Idle], [0], [0]);
            Step(Step(Step(s, Take(0)), Proceed(0)), Proceed(0)) == Nested(1)
  {
  }

  lemma FurtherTake(n: nat)
    ensures Step(Step(Step(Nested(n), Take(0)), Proceed(0)), Proceed(0)) == Nested(n + 1)
  {
    assert (n % WORD + 1) % WORD == (n + 1) % WORD;
  }

  lemma {:induction false} TakesNest(n: nat)
    requires n > 0
    ensures Run(Initial(1), NestedTakes(n)) == Nested(n)
  {
    hide Run, Step;
    RunThree(Initial(1), NestedTakes(n - 1), Take(0), Proceed(0), Proceed(0));
    if n == 1 {
      RunOfNone(Initial(1));
      assert Initial(1) == System(Mutex(1, None, 0), [Idle], [0], [0]);
      FirstTake();
    } else {
      TakesNest(n - 1);
      FurtherTake(n - 1);
    }
  }

  lemma RunOfNone(s: System)
    requires Shaped(s)
    ensures Run(s, []) == s
  {
  }

  /** One task that takes the mutex 2^32 times holds it with count 0, against the invariant. */
  lemma WrapIsReachable()
    ensures var s := Run(Initial(1), NestedTakes(0x1_0000_0000));
            s.m == Mutex(0, Some(0), 0) && Nesting(s, 0) == 0x1_0000_0000 && Deep(s) && !Inv(s)
  {
    hide Run, NestedTakes;
    TakesNest(WORD);
    var s := Run(Initial(1), NestedTakes(WORD));
    assert Nesting(s, 0) == WORD;
    assert !Inside(s, 0);
  }

  // ----- calls that nobody interrupts -----

  function TakeCall(m: Mutex, t: Task): (Mutex, bool) {
    if m.xMutexHolder == Some(t) then (Incremented(m), true)
    else if m.uxMessagesWaiting > 0 then (Incremented(SemaphoreTaken(m, t)), true)
    else (m, false)
  }

  function GiveCall(m: Mutex, t: Task): (Mutex, bool) {
    if m.xMutexHolder != Some(t) then (m, false)
    else
      var d := Decremented(m);
      (if d.uxRecursiveCallCount == 0 then Sent(d) else d, true)
  }

  /** They are the interleavings in which one task runs alone. */
  lemma CallsAreRuns(s: System, t: Task)
    requires Shaped(s) && Inv(s) && t < |s.pc| && s.pc[t].Idle?
    ensures var r := Step(Step(Step(Step(s, Take(t)), Proceed(t)), Proceed(t)), GiveUp(t));
            && r.m == TakeCall(s.m, t).0 && r.pc[t].Idle?
            && Nesting(r, t) == Nesting(s, t) + (if TakeCall(s.m, t).1 then 1 else 0)
    ensures var r := Step(Step(Step(s, Give(t)), Proceed(t)), Proceed(t));
            && r.m == GiveCall(s.m, t).0 && r.pc[t].Idle?
            && Nesting(r, t) == Nesting(s, t) - (if GiveCall(s.m, t).1 then 1 else 0)
  {
    if s.m.xMutexHolder != Some(t) {
      assert Outside(s, t);
    }
  }

  /** A mutex that nobody holds, and one that t has taken n times. */
  function HeldBy(t: Task, n: nat): Mutex
    requires n < 0x1_0000_0000
  {
    if n == 0 then Mutex(1, None, 0) else Mutex(0, Some(t), n)
  }

  /** The mutex after n calls in a row, and whether all of them have succeeded. */
  function TakeCalls(m: Mutex, t: Task, n: nat): (Mutex, bool) {
    if n == 0 then (m, true)
    else
      var (r, ok) := TakeCalls(m, t, n - 1);
      (TakeCall(r, t).0, ok && TakeCall(r, t).1)
  }

  function GiveCalls(m: Mutex, t: Task, n: nat): (Mutex, bool) {
    if n == 0 then (m, true)
    else
      var (r, ok) := GiveCalls(m, t, n - 1);
      (GiveCall(r, t).0, ok && GiveCall(r, t).1)
  }

  /** n takes in a row all succeed, and so do up to n gives after them.  With as many gives as takes
      the mutex is back at one message and no holder; before that, t still holds it. */
  lemma {:induction false} GivesUndoTakes(t: Task, n: nat, k: nat)
    requires k <= n < 0x1_0000_0000
    ensures TakeCalls(HeldBy(t, 0), t, n) == (HeldBy(t, n), true)
    ensures GiveCalls(HeldBy(t, n), t, k) == (HeldBy(t, n - k), true)
    decreases n + k
  {
    hide TakeCall, GiveCall, HeldBy;
    if n > 0 && k == 0 {
      GivesUndoTakes(t, n - 1, 0);
      OneCall(t, n);
    } else if k > 0 {
      GivesUndoTakes(t, n, k - 1);
      OneCall(t, n - k + 1);
    }
  }

  lemma OneCall(t: Task, n: nat)
    requires 0 < n < 0x1_0000_0000
    ensures TakeCall(HeldBy(t, n - 1), t) == (HeldBy(t, n), true)
    ensures GiveCall(HeldBy(t, n), t) == (HeldBy(t, n - 1), true)
  {
  }

  /** Who else calls meanwhile gets nowhere, and changes nothing. */
  lemma HeldAgainstOthers(t: Task, u: Task, n: nat)
    requires 0 < n < 0x1_0000_0000 && u != t
    ensures TakeCall(HeldBy(t, n), u) == (HeldBy(t, n), false) && GiveCall(HeldBy(t, n), u) == (HeldBy(t, n), false)
    ensures GiveCall(HeldBy(t, 0), u) == (HeldBy(t, 0), false)
  {
  }

  class Semaphore {
    var uxMessagesWaiting: nat
    var xMutexHolder: Option<Task>
    var uxRecursiveCallCount: word

    ghost function Value(): Mutex
      reads this
    {
      Mutex(uxMessagesWaiting, xMutexHolder, uxRecursiveCallCount)
    }

    /** prvInitialiseMutex on a new queue of length 1. */
    constructor ()
      ensures Value() == Initial(0).m
    {
      uxMessagesWaiting, uxRecursiveCallCount := 0, 0;
      xMutexHolder := None;
      new;
      Send();
    }

    /** xQueueGenericSend. */
    method Send()
      modifies this
      ensures Value() == Sent(old(Value()))
    {
      if uxMessagesWaiting < 1 {
        xMutexHolder := None;
        uxMessagesWaiting := uxMessagesWaiting + 1;
      }
    }

    /** xQueueSemaphoreTake without block time. */
    method SemaphoreTake(current: Task) returns (pass: bool)
      modifies this
      ensures Value() == SemaphoreTaken(old(Value()), current) && pass == (old(uxMessagesWaiting) > 0)
    {
      pass := uxMessagesWaiting > 0;
      if pass {
        uxMessagesWaiting := uxMessagesWaiting - 1;
        xMutexHolder := Some(current);
      }
    }

    /** xQueueTakeMutexRecursive. */
    method TakeMutexRecursive(current: Task) returns (pass: bool)
      modifies this
      ensures (Value(), pass) == TakeCall(old(Value()), current)
    {
      if xMutexHolder == Some(current) {
        uxRecursiveCallCount := (uxRecursiveCallCount + 1) % WORD;
        pass := true;
      } else {
        pass := SemaphoreTake(current);
        if pass {
          uxRecursiveCallCount := (uxRecursiveCallCount + 1) % WORD;
        }
      }
    }

    /** xQueueGiveMutexRecursive. */
    method GiveMutexRecursive(current: Task) returns (pass: bool)
      modifies this
      ensures (Value(), pass) == GiveCall(old(Value()), current)
    {
      pass := xMutexHolder == Some(current);
      if pass {
        uxRecursiveCallCount := (uxRecursiveCallCount - 1) % WORD;
        if uxRecursiveCallCount == 0 {
          Send();
        }
      }
    }
  }
}
