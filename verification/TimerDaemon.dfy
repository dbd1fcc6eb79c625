/** The timer service task of tests/FreeRTOS/timers.c in unbounded time: what it does with its
 *  timeline and its command queue, and what every run of it guarantees. */
module TimerDaemon {
  import opened ListModel
  import opened TimerModel
  import opened Wrappers

  datatype Command =
    | Start(id: int, time: int)            // tmrCOMMAND_START, RESET and START_DONT_TRACE, sent at that time
    | Stop(id: int)
    | ChangePeriod(id: int, period: word)
    | Delete(id: int)

  /** The callback of timer id, called at time at for the expiry at time due. */
  datatype Fire = Fire(due: int, id: int, at: int)

  /** last is the time prvSampleTimeNow saw last. */
  datatype Daemon = Daemon(pending: seq<Alarm>, timers: Timers, commands: seq<Command>, fired: seq<Fire>, last: int)

  function Fires(s: seq<Alarm>, n: int): (r: seq<Fire>)
    ensures |r| == |s| && forall i | 0 <= i < |s| :: r[i] == Fire(s[i].due, s[i].id, n)
  {
    seq(|s|, i requires 0 <= i < |s| => Fire(s[i].due, s[i].id, n))
  }

  function Starts(s: seq<Alarm>): (r: seq<Command>)
    ensures |r| == |s| && forall i | 0 <= i < |s| :: r[i] == Start(s[i].id, s[i].due)
  {
    seq(|s|, i requires 0 <= i < |s| => Start(s[i].id, s[i].due))
  }

  /** xTimerGenericCommand by the daemon itself, which asserts that the queue has room.
      None stands for the failed assertion, after which the processor loops for ever. */
  function Send(d: Daemon, c: Command): Option<Daemon> {
    if |d.commands| < QUEUE_LENGTH then Some(d.(commands := d.commands + [c])) else None
  }

  function Called(d: Daemon, a: Alarm, n: int): Daemon {
    d.(fired := d.fired + [Fire(a.due, a.id, n)])
  }

  /** prvSampleTimeNow: all that was due before the wrap goes off when the wrap is noticed. */
  function Sample(d: Daemon, n: int): Option<Daemon>
    requires Known(d.pending, d.timers)
  {
    if n / WRAP == d.last / WRAP then Some(d.(last := n))
    else
      var x := Drain(d.pending, d.timers, n / WRAP * WRAP);
      if |d.commands| + |x.restarts| > QUEUE_LENGTH then None
      else Some(d.(pending := x.rest, fired := d.fired + Fires(x.fired, n),
          commands := d.commands + Starts(x.restarts), last := n))
  }

  /** prvProcessExpiredTimer. */
  function Expire(d: Daemon, n: int): Option<Daemon>
    requires Known(d.pending, d.timers) && d.pending != []
  {
    var a := d.pending[0];
    assert KnownTimer(a.id, d.timers);
    var t, b, e := d.timers[a.id], Reloaded(a, d.timers), Called(d, a, n).(pending := d.pending[1..]);
    if !t.autoReload then Some(e.(timers := d.timers[a.id := t.(active := false)]))
    else if b.due <= n then Send(e, Start(a.id, a.due))
    else Some(e.(pending := Put(e.pending, b)))
  }

  /** prvProcessTimerOrBlockTask. */
  function Process(d: Daemon, n: int): Option<Daemon>
    requires Known(d.pending, d.timers)
  {
    if n / WRAP == d.last / WRAP && d.pending != [] && d.pending[0].due <= n
    then Expire(d.(last := n), n)
    else Sample(d, n)
  }

  /** A command takes effect at time n, its timer being in no list. */
  function Act(d: Daemon, c: Command, n: int): Option<Daemon>
    requires KnownTimer(c.id, d.timers)
  {
    var t := d.timers[c.id];
    match c
    case Start(id, time) =>
      var a, e := Alarm(time + t.period, id), d.(timers := d.timers[id := t.(active := true)]);
      if n < a.due then Some(e.(pending := Put(d.pending, a)))
      else if t.autoReload then Send(Called(e, a, n), Start(id, a.due))
      else Some(Called(e, a, n))
    case ChangePeriod(id, period) =>
      if period == 0 then None
      else Some(d.(timers := d.timers[id := t.(active := true, period := period)],
                   pending := Put(d.pending, Alarm(n + period, id))))
    case _ => Some(d.(timers := d.timers[c.id := t.(active := false)]))
  }

  /** One round of prvProcessReceivedCommands. */
  function Receive(d: Daemon, n: int): Option<Daemon>
    requires Fine(d)
  {
    if d.commands == [] then Some(d)
    else
      var c := d.commands[0];
      assert KnownCommand(c, d.timers);
      WithoutKeeps(d.pending, c.id, d.timers);
      match Sample(d.(commands := d.commands[1..], pending := Without(d.pending, c.id)), n)
      case None => None
      case Some(e) => Act(e, c, n)
  }

  datatype Event =
    | Processing(n: int)
    | Receiving(n: int)
    | Post(c: Command)     // a task calls xTimerGenericCommand without waiting

  function Step(d: Daemon, e: Event): Option<Daemon>
    requires Fine(d)
  {
    match e
    case Processing(n) => Process(d, n)
    case Receiving(n) => Receive(d, n)
    case Post(c) =>
      Some(if KnownCommand(c, d.timers) && |d.commands| < QUEUE_LENGTH then d.(commands := d.commands + [c]) else d)
  }

  predicate KnownCommand(c: Command, timers: Timers) {
    KnownTimer(c.id, timers)
  }

  ghost predicate KnownCommands(s: seq<Command>, timers: Timers) {
    forall i | 0 <= i < |s| :: KnownCommand(s[i], timers)
  }

  /** The timeline is in order and lists no timer twice, and all timers exist. */
  ghost predicate Fine(d: Daemon) {
    Ordered(d.pending) && Known(d.pending, d.timers) && Single(d.pending) && KnownCommands(d.commands, d.timers)
  }

  // ----- draining, timer by timer -----

  function Progression(due: int, p: int, k: nat): (r: seq<int>)
    ensures |r| == k && forall i | 0 <= i < k :: r[i] == due + i * p
  {
    seq(k, i => due + i * p)
  }

  lemma ProgressionExtends(due: int, p: int, k: nat, j: nat)
    ensures Progression(due, p, k) + Progression(due + k * p, p, j) == Progression(due, p, k + j)
    ensures due + k * p + j * p == due + (k + j) * p
  {
    forall i | 0 <= i < j
      ensures due + k * p + i * p == due + (k + i) * p
    {
    }
  }

  /** What draining makes of a timer: listed for x before and for rest after, gone off for f,
      with restarts sent for rs. */
  ghost predicate Share(x: seq<int>, f: seq<int>, rest: seq<int>, rs: seq<int>, t: Timer, limit: int) {
    if x == [] || limit <= x[0] then f == [] && rest == x && rs == []
    else
      && rest == [] && |f| >= 1 && f == Progression(x[0], t.period, |f|)
      && if t.autoReload then rs == [x[0] + (|f| - 1) * t.period] else |f| == 1 && rs == []
  }

  lemma ShareStep(due: int, f: seq<int>, rest: seq<int>, rs: seq<int>, t: Timer, limit: int)
    requires due < limit
    requires Share(if t.autoReload && due + t.period < limit then [due + t.period] else [], f, rest, rs, t, limit)
    ensures var r := if t.autoReload && limit <= due + t.period then [due] else [];
            Share([due], [due] + f, rest, r + rs, t, limit)
  {
    hide Progression;
    ProgressionExtends(due, t.period, 1, |f|);
    assert Progression(due, t.period, 1) == [due];
    assert (|f| - 1) * t.period + t.period == |f| * t.period;
  }

  /** What the drain does with a timer that is not listed, or listed once. */
  lemma {:induction false} DrainOf(s: seq<Alarm>, timers: Timers, limit: int, id: int)
    requires Known(s, timers) && Ordered(s) && |Of(s, id)| <= 1 && KnownTimer(id, timers)
    ensures var d := Drain(s, timers, limit);
            Share(Of(s, id), Of(d.fired, id), Of(d.rest, id), Of(d.restarts, id), timers[id], limit)
    decreases Measure(s, limit)
  {
    hide Drain, Next, Restart, Measure, Progression, Of, Share;
    var d := Drain(s, timers, limit);
    if s == [] || limit <= s[0].due {
      DrainNone(s, timers, limit);
      OfLater(s, timers[id], limit, id);
    } else {
      var e, a, r := Drain(Next(s, timers, limit), timers, limit), s[0], Restart(s[0], timers, limit);
      DrainOne(s, timers, limit);
      NextKeeps(s, timers, limit);
      NextOf(s, timers, limit, id);
      DrainOf(Next(s, timers, limit), timers, limit, id);
      OfConcat([a], e.fired, id);
      OfConcat(r, e.restarts, id);
      OfOne(a, id);
      if a.id == id {
        ShareStep(a.due, Of(e.fired, id), Of(e.rest, id), Of(e.restarts, id), timers[id], limit);
      } else {
        assert Of(d.fired, id) == Of(e.fired, id) && Of(d.restarts, id) == Of(e.restarts, id);
      }
    }
  }

  lemma {:induction false} OfLater(s: seq<Alarm>, t: Timer, limit: int, id: int)
    requires Ordered(s) && (s == [] || limit <= s[0].due)
    ensures Share(Of(s, id), Of([], id), Of(s, id), Of([], id), t, limit)
  {
    if s != [] {
      OfLater(s[1..], t, limit, id);
    }
  }

  lemma NextOf(s: seq<Alarm>, timers: Timers, limit: int, id: int)
    requires HasDue(s, timers, limit) && |Of(s, id)| <= 1 && KnownTimer(id, timers)
    ensures var a, t, n, r := s[0], timers[id], Of(Next(s, timers, limit), id), Of(Restart(s[0], timers, limit), id);
            if a.id != id then n == Of(s, id) && r == []
            else
              && Of(s, id) == [a.due]
              && n == (if t.autoReload && a.due + t.period < limit then [a.due + t.period] else [])
              && r == (if t.autoReload && limit <= a.due + t.period then [a.due] else [])
  {
    hide Put, Measure, Of;
    OfHead(s, id);
    OfPut(s[1..], Reloaded(s[0], timers), id);
    OfOne(s[0], id);
    OfNone(id);
  }

  // ----- every step keeps the timeline in order -----

  lemma {:induction false} UnknownIsUnlisted(s: seq<Alarm>, timers: Timers, id: int)
    requires Known(s, timers) && !KnownTimer(id, timers)
    ensures Of(s, id) == []
  {
    if s != [] {
      assert KnownTimer(s[0].id, timers);
      UnknownIsUnlisted(s[1..], timers, id);
    }
  }

  lemma PutKeeps(s: seq<Alarm>, a: Alarm, timers: Timers)
    requires Ordered(s) && Known(s, timers) && Single(s) && KnownTimer(a.id, timers) && Of(s, a.id) == []
    ensures var r := Put(s, a); Ordered(r) && Known(r, timers) && Single(r)
  {
    hide Of;
    PutKeepsOrder(s, a);
    forall id
      ensures |Of(Put(s, a), id)| <= 1
    {
      OfPut(s, a, id);
    }
  }

  lemma TimersUpdated(d: Daemon, id: int, t: Timer)
    requires Fine(d) && t.period > 0
    ensures Fine(d.(timers := d.timers[id := t]))
  {
    var r := d.timers[id := t];
    forall i | 0 <= i < |d.pending|
      ensures KnownTimer(d.pending[i].id, r)
    {
      assert KnownTimer(d.pending[i].id, d.timers);
    }
    forall i | 0 <= i < |d.commands|
      ensures KnownCommand(d.commands[i], r)
    {
      assert KnownCommand(d.commands[i], d.timers);
    }
  }

  lemma SampleKeeps(d: Daemon, n: int)
    requires Fine(d) && Sample(d, n).Some?
    ensures Fine(Sample(d, n).value) && Sample(d, n).value.timers == d.timers
  {
    hide Of, Drain;
    if n / WRAP != d.last / WRAP {
      var limit := n / WRAP * WRAP;
      var x := Drain(d.pending, d.timers, limit);
      DrainInOrder(d.pending, d.timers, limit);
      forall id
        ensures |Of(x.rest, id)| <= 1
      {
        if KnownTimer(id, d.timers) {
          DrainOf(d.pending, d.timers, limit, id);
        } else {
          UnknownIsUnlisted(x.rest, d.timers, id);
        }
      }
      StartsKnown(x.restarts, d.timers);
    }
  }

  lemma StartsKnown(s: seq<Alarm>, timers: Timers)
    requires Known(s, timers)
    ensures KnownCommands(Starts(s), timers)
  {
    forall i | 0 <= i < |s|
      ensures KnownCommand(Starts(s)[i], timers)
    {
      assert KnownTimer(s[i].id, timers);
    }
  }

  lemma TailFine(d: Daemon)
    requires Fine(d) && d.pending != []
    ensures Fine(d.(pending := d.pending[1..])) && Of(d.pending[1..], d.pending[0].id) == []
  {
    var a, r := d.pending[0], d.pending[1..];
    assert |Of(d.pending, a.id)| <= 1;
    forall id
      ensures |Of(r, id)| <= 1
    {
      assert |Of(d.pending, id)| <= 1;
    }
  }

  lemma ExpireKeeps(d: Daemon, n: int)
    requires Fine(d) && d.pending != [] && Expire(d, n).Some?
    ensures Fine(Expire(d, n).value)
  {
    hide Of, Put, Single, Ordered;
    var a := d.pending[0];
    assert KnownTimer(a.id, d.timers);
    TailFine(d);
    var e, t := Called(d, a, n).(pending := d.pending[1..]), d.timers[a.id];
    if !t.autoReload {
      TimersUpdated(e, a.id, t.(active := false));
    } else {
      PutKeeps(e.pending, Reloaded(a, d.timers), d.timers);
    }
  }

  lemma ActKeeps(d: Daemon, c: Command, n: int)
    requires Fine(d) && KnownTimer(c.id, d.timers) && Of(d.pending, c.id) == [] && Act(d, c, n).Some?
    ensures Fine(Act(d, c, n).value)
  {
    hide Of, Put, Single, Ordered;
    var t := d.timers[c.id];
    match c
    case Start(id, time) =>
      var e := d.(timers := d.timers[id := t.(active := true)]);
      TimersUpdated(d, id, t.(active := true));
      PutKeeps(e.pending, Alarm(time + t.period, id), e.timers);
    case ChangePeriod(id, period) =>
      var e := d.(timers := d.timers[id := t.(active := true, period := period)]);
      TimersUpdated(d, id, t.(active := true, period := period));
      PutKeeps(e.pending, Alarm(n + period, id), e.timers);
    case _ =>
      TimersUpdated(d, c.id, t.(active := false));
  }

  lemma RemovedFine(d: Daemon)
    requires Fine(d) && d.commands != []
    ensures var c := d.commands[0]; var e := d.(commands := d.commands[1..], pending := Without(d.pending, c.id));
            Fine(e) && Of(e.pending, c.id) == [] && KnownTimer(c.id, d.timers)
  {
    hide Of;
    var c := d.commands[0];
    assert KnownCommand(c, d.timers);
    WithoutKeeps(d.pending, c.id, d.timers);
    forall id
      ensures |Of(Without(d.pending, c.id), id)| <= 1
    {
      OfWithout(d.pending, c.id, id);
    }
    OfWithout(d.pending, c.id, c.id);
  }

  lemma SampleKeepsUnlisted(d: Daemon, n: int, id: int)
    requires Fine(d) && KnownTimer(id, d.timers) && Of(d.pending, id) == [] && Sample(d, n).Some?
    ensures Of(Sample(d, n).value.pending, id) == []
  {
    DrainOf(d.pending, d.timers, n / WRAP * WRAP, id);
  }

  /** What every step keeps. */
  lemma StepKeeps(d: Daemon, e: Event)
    requires Fine(d) && Step(d, e).Some?
    ensures Fine(Step(d, e).value)
  {
    hide Of, Sample, Expire, Act, Without, Single, Ordered, Known;
    match e
    case Processing(n) =>
      if Process(d, n) == Sample(d, n) {
        SampleKeeps(d, n);
      } else {
        ExpireKeeps(d.(last := n), n);
      }
    case Receiving(n) =>
      if d.commands != [] {
        var c := d.commands[0];
        RemovedFine(d);
        var u := d.(commands := d.commands[1..], pending := Without(d.pending, c.id));
        SampleKeeps(u, n);
        SampleKeepsUnlisted(u, n, c.id);
        ActKeeps(Sample(u, n).value, c, n);
      }
    case Post(c) =>
  }

  // ----- every run calls a timer exactly when it is due -----

  /** The expiry times for which timer id has been called. */
  function Calls(s: seq<Fire>, id: int): seq<int> {
    if s == [] then [] else if s[0].id == id then [s[0].due] + Calls(s[1..], id) else Calls(s[1..], id)
  }

  /** The expiry times that the start commands for timer id ask for. */
  function Asked(s: seq<Command>, id: int, p: int): seq<int> {
    if s == [] then []
    else if s[0].Start? && s[0].id == id then [s[0].time + p] + Asked(s[1..], id, p)
    else Asked(s[1..], id, p)
  }

  lemma {:induction false} CallsConcat(a: seq<Fire>, b: seq<Fire>, id: int)
    ensures Calls(a + b, id) == Calls(a, id) + Calls(b, id)
  {
    if a == [] {
      assert a + b == b;
    } else {
      assert (a + b)[0] == a[0] && (a + b)[1..] == a[1..] + b;
      CallsConcat(a[1..], b, id);
      assert Calls(a, id) + Calls(b, id)
          == (if a[0].id == id then [a[0].due] else []) + (Calls(a[1..], id) + Calls(b, id));
    }
  }

  lemma {:induction false} AskedConcat(a: seq<Command>, b: seq<Command>, id: int, p: int)
    ensures Asked(a + b, id, p) == Asked(a, id, p) + Asked(b, id, p)
  {
    if a == [] {
      assert a + b == b;
    } else {
      assert (a + b)[0] == a[0] && (a + b)[1..] == a[1..] + b;
      AskedConcat(a[1..], b, id, p);
      assert Asked(a, id, p) + Asked(b, id, p)
          == (if a[0].Start? && a[0].id == id then [a[0].time + p] else []) + (Asked(a[1..], id, p) + Asked(b, id, p));
    }
  }

  lemma {:induction false} CallsOfFires(s: seq<Alarm>, n: int, id: int)
    ensures Calls(Fires(s, n), id) == Of(s, id)
  {
    if s != [] {
      assert Fires(s, n)[1..] == Fires(s[1..], n);
      CallsOfFires(s[1..], n, id);
    }
  }

  lemma {:induction false} AskedOfStarts(s: seq<Alarm>, id: int, p: int)
    ensures var x := Of(s, id); Asked(Starts(s), id, p) == seq(|x|, i requires 0 <= i < |x| => x[i] + p)
  {
    if s != [] {
      assert Starts(s)[1..] == Starts(s[1..]);
      AskedOfStarts(s[1..], id, p);
      var x, y := Of(s, id), Of(s[1..], id);
      if s[0].id == id {
        assert x == [s[0].due] + y;
      } else {
        assert x == y;
      }
    }
  }

  /** Nobody else has asked the daemon to stop, change or delete timer id. */
  predicate Quiet(s: seq<Command>, id: int) {
    forall i | 0 <= i < |s| && s[i].id == id :: s[i].Start?
  }

  /** When timer id expires next, whether it is listed or its restart is still in the queue. */
  function Token(d: Daemon, id: int): seq<int>
    requires id in d.timers
  {
    Of(d.pending, id) + Asked(d.commands, id, d.timers[id].period)
  }

  ghost predicate Undisturbed(d: Daemon, id: int, t: Timer) {
    && KnownTimer(id, d.timers) && d.timers[id].period == t.period && d.timers[id].autoReload == t.autoReload
    && Quiet(d.commands, id) && |Token(d, id)| <= 1
  }

  /** From next expiry x to next expiry y, with the expiries in between, and only those, called:
      x, x + period, ... for a reloading timer, x at most once for a one-shot timer. */
  ghost predicate Moves(x: seq<int>, y: seq<int>, before: seq<int>, after: seq<int>, t: Timer) {
    if x == [] then y == [] && after == before
    else
      var k := |after| - |before|;
      && k >= 0 && after == before + Progression(x[0], t.period, k)
      && if t.autoReload then y == [x[0] + k * t.period] else (k == 0 && y == x) || (k == 1 && y == [])
  }

  lemma MovesNot(x: seq<int>, f: seq<int>, t: Timer)
    requires |x| <= 1
    ensures Moves(x, x, f, f, t)
  {
  }

  lemma MovesOnce(x: int, y: seq<int>, f: seq<int>, t: Timer)
    requires y == if t.autoReload then [x + t.period] else []
    ensures Moves([x], y, f, f + [x], t)
  {
    assert Progression(x, t.period, 1) == [x];
  }

  lemma MovesOn(x: seq<int>, y: seq<int>, z: seq<int>, f: seq<int>, g: seq<int>, h: seq<int>, t: Timer)
    requires Moves(x, y, f, g, t) && Moves(y, z, g, h, t)
    ensures Moves(x, z, f, h, t)
  {
    hide Progression;
    if x != [] {
      var k, p := |g| - |f|, t.period;
      if t.autoReload {
        ProgressionExtends(x[0], p, k, |h| - |g|);
        assert h == f + (Progression(x[0], p, k) + Progression(y[0], p, |h| - |g|));
      } else if y != [] {
        NoneYet(x[0], p);
        assert g == f;
      }
    }
  }

  lemma NoneYet(x: int, p: int)
    ensures Progression(x, p, 0) == []
  {
  }

  ghost predicate Advances(d: Daemon, r: Daemon, id: int, t: Timer)
    requires id in d.timers && id in r.timers
  {
    Moves(Token(d, id), Token(r, id), Calls(d.fired, id), Calls(r.fired, id), t)
  }

  lemma ShareMoves(x: seq<int>, f: seq<int>, rest: seq<int>, rs: seq<int>, t: Timer, limit: int, before: seq<int>)
    requires |x| <= 1 && Share(x, f, rest, rs, t, limit)
    ensures Moves(x, rest + seq(|rs|, i requires 0 <= i < |rs| => rs[i] + t.period), before, before + f, t)
  {
    if x != [] && x[0] < limit && t.autoReload {
      var p := t.period;
      assert (|f| - 1) * p + p == |f| * p;
    }
  }

  lemma SampleAdvances(d: Daemon, n: int, id: int, t: Timer)
    requires Fine(d) && Undisturbed(d, id, t) && Sample(d, n).Some?
    ensures var r := Sample(d, n).value; Undisturbed(r, id, t) && Advances(d, r, id, t)
  {
    hide Moves, Share, Progression, Drain, Of, Asked, Calls, Single, Ordered;
    var r, limit, p := Sample(d, n).value, n / WRAP * WRAP, t.period;
    if n / WRAP == d.last / WRAP {
      MovesNot(Token(d, id), Calls(d.fired, id), t);
    } else {
      var x := DrainShare(d, limit, id, t);
      CallsOfFires(x.fired, n, id);
      CallsConcat(d.fired, Fires(x.fired, n), id);
      AskedOfStarts(x.restarts, id, p);
      AskedConcat(d.commands, Starts(x.restarts), id, p);
      SharesMove(Of(d.pending, id), Asked(d.commands, id, p), Of(x.fired, id), Of(x.rest, id), Of(x.restarts, id),
                 t, limit, Calls(d.fired, id));
    }
  }

  lemma DrainShare(d: Daemon, limit: int, id: int, t: Timer) returns (x: Drained)
    requires Fine(d) && Undisturbed(d, id, t)
    ensures x == Drain(d.pending, d.timers, limit)
    ensures Share(Of(d.pending, id), Of(x.fired, id), Of(x.rest, id), Of(x.restarts, id), t, limit)
  {
    x := Drain(d.pending, d.timers, limit);
    assert |Of(d.pending, id)| <= 1;
    DrainOf(d.pending, d.timers, limit, id);
  }

  /** The same with the restart, if one was asked for before, still in the queue. */
  lemma SharesMove(x: seq<int>, q: seq<int>, f: seq<int>, rest: seq<int>, rs: seq<int>, t: Timer, limit: int,
        before: seq<int>)
    requires |x + q| <= 1 && Share(x, f, rest, rs, t, limit)
    ensures var y := rest + (q + seq(|rs|, i requires 0 <= i < |rs| => rs[i] + t.period));
            |y| <= 1 && Moves(x + q, y, before, before + f, t)
  {
    hide Moves;
    if q == [] {
      assert x + q == x;
      ShareMoves(x, f, rest, rs, t, limit, before);
      assert q + seq(|rs|, i requires 0 <= i < |rs| => rs[i] + t.period)
             == seq(|rs|, i requires 0 <= i < |rs| => rs[i] + t.period);
    } else {
      assert x == [] && x + q == q;
      assert rest + (q + seq(|rs|, i requires 0 <= i < |rs| => rs[i] + t.period)) == q && before + f == before;
      MovesNot(q, before, t);
    }
  }

  lemma CallsOne(s: seq<Fire>, a: Alarm, n: int, id: int)
    ensures Calls(s + [Fire(a.due, a.id, n)], id) == if a.id == id then Calls(s, id) + [a.due] else Calls(s, id)
  {
    CallsConcat(s, [Fire(a.due, a.id, n)], id);
  }

  lemma AskedOne(s: seq<Command>, c: Command, id: int, p: int)
    ensures Asked(s + [c], id, p) == if c.Start? && c.id == id then Asked(s, id, p) + [c.time + p] else Asked(s, id, p)
  {
    AskedConcat(s, [c], id, p);
  }

  lemma ExpireAdvances(d: Daemon, n: int, id: int, t: Timer)
    requires Fine(d) && Undisturbed(d, id, t) && d.pending != [] && Expire(d, n).Some?
    ensures var r := Expire(d, n).value; Undisturbed(r, id, t) && Advances(d, r, id, t)
  {
    hide Moves, Progression, Put, Calls, Asked, Single, Ordered, Of;
    var r, a, tail, p := Expire(d, n).value, d.pending[0], d.pending[1..], t.period;
    assert KnownTimer(a.id, d.timers);
    TailFine(d);
    OfHead(d.pending, id);
    OfPut(tail, Reloaded(a, d.timers), id);
    CallsOne(d.fired, a, n, id);
    AskedOne(d.commands, Start(a.id, a.due), id, p);
    if a.id == id {
      assert Token(d, id) == [a.due];
      assert Token(r, id) == if t.autoReload then [a.due + p] else [];
      MovesOnce(a.due, Token(r, id), Calls(d.fired, id), t);
    } else {
      assert Token(r, id) == Token(d, id);
      MovesNot(Token(d, id), Calls(d.fired, id), t);
    }
  }

  lemma ActAdvances(d: Daemon, c: Command, n: int, id: int, t: Timer)
    requires Fine(d) && Undisturbed(d, id, t) && KnownTimer(c.id, d.timers) && Act(d, c, n).Some?
    requires c.id != id
    ensures var r := Act(d, c, n).value; Undisturbed(r, id, t) && Advances(d, r, id, t)
  {
    hide Moves, Progression, Put, Calls, Asked, Of, Single, Ordered;
    var r, p := Act(d, c, n).value, t.period;
    var q := if c.Start? then c.time + d.timers[c.id].period else if c.ChangePeriod? then n + c.period else 0;
    OfPut(d.pending, Alarm(q, c.id), id);
    CallsOne(d.fired, Alarm(q, c.id), n, id);
    AskedOne(d.commands, Start(c.id, q), id, p);
    assert Token(r, id) == Token(d, id);
    MovesNot(Token(d, id), Calls(d.fired, id), t);
  }

  lemma StartAdvances(d: Daemon, c: Command, n: int, id: int, t: Timer)
    requires Fine(d) && Undisturbed(d, id, t) && c.Start? && c.id == id && Token(d, id) == [] && Act(d, c, n).Some?
    ensures var r := Act(d, c, n).value;
            && Undisturbed(r, id, t)
            && Moves([c.time + t.period], Token(r, id), Calls(d.fired, id), Calls(r.fired, id), t)
  {
    hide Moves, Progression, Put, Calls, Asked, Of, Single, Ordered;
    var r, a, p := Act(d, c, n).value, Alarm(c.time + t.period, id), t.period;
    OfPut(d.pending, a, id);
    CallsOne(d.fired, a, n, id);
    AskedOne(d.commands, Start(id, a.due), id, p);
    if n < a.due {
      assert Token(r, id) == [a.due];
      MovesNot([a.due], Calls(d.fired, id), t);
    } else {
      assert Token(r, id) == if t.autoReload then [a.due + p] else [];
      MovesOnce(a.due, Token(r, id), Calls(d.fired, id), t);
    }
  }

  lemma ReceiveAdvances(d: Daemon, n: int, id: int, t: Timer)
    requires Fine(d) && Undisturbed(d, id, t) && Receive(d, n).Some?
    ensures var r := Receive(d, n).value; Undisturbed(r, id, t) && Advances(d, r, id, t)
  {
    hide Moves, Progression, Calls, Sample, Act, Of, Single, Ordered, Known;
    if d.commands == [] {
      MovesNot(Token(d, id), Calls(d.fired, id), t);
    } else {
      var r, c := Receive(d, n).value, d.commands[0];
      var u := d.(commands := d.commands[1..], pending := Without(d.pending, c.id));
      RemovedFine(d);
      OfWithout(d.pending, c.id, id);
      SampleKeeps(u, n);
      SampleAdvances(u, n, id, t);
      var e := Sample(u, n).value;
      if c.id == id {
        assert Token(d, id) == [c.time + t.period] && Token(u, id) == [];
        NoMove(Token(u, id), Token(e, id), Calls(u.fired, id), Calls(e.fired, id), t);
        StartAdvances(e, c, n, id, t);
      } else {
        assert Token(u, id) == Token(d, id);
        ActAdvances(e, c, n, id, t);
        MovesOn(Token(d, id), Token(e, id), Token(r, id), Calls(d.fired, id), Calls(e.fired, id),
                Calls(r.fired, id), t);
      }
    }
  }

  lemma NoMove(x: seq<int>, y: seq<int>, f: seq<int>, g: seq<int>, t: Timer)
    requires Moves(x, y, f, g, t) && x == []
    ensures y == [] && g == f
  {
  }

  /** A run, until an assertion fails. */
  function Run(d: Daemon, es: seq<Event>): Option<Daemon>
    requires Fine(d)
    decreases |es|
  {
    if |es| == 0 then Some(d)
    else
      match Step(d, es[0])
      case None => None
      case Some(e) => StepKeeps(d, es[0]); Run(e, es[1..])
  }

  /** Over every run in which no task commands timer id: a reloading timer whose next expiry is x
      has been called for x, x + period, ... and nothing else, and expires next one period after
      the last of them; a one-shot timer has been called for x once or is still to expire at x. */
  lemma {:induction false} TimerIsCalledOnTime(d: Daemon, es: seq<Event>, id: int, t: Timer)
    requires Fine(d) && Undisturbed(d, id, t) && Run(d, es).Some?
    requires forall i | 0 <= i < |es| && es[i].Post? :: es[i].c.id != id
    ensures var r := Run(d, es).value; Undisturbed(r, id, t) && Advances(d, r, id, t)
    decreases |es|
  {
    hide Moves, Progression, Calls, Sample, Expire, Receive, Of, Single, Ordered;
    if |es| == 0 {
      MovesNot(Token(d, id), Calls(d.fired, id), t);
    } else {
      var e, r := Step(d, es[0]).value, Run(d, es).value;
      StepKeeps(d, es[0]);
      match es[0] {
        case Processing(n) =>
          if Process(d, n) == Sample(d, n) {
            SampleAdvances(d, n, id, t);
          } else {
            ExpireAdvances(d.(last := n), n, id, t);
          }
        case Receiving(n) => ReceiveAdvances(d, n, id, t);
        case Post(c) =>
          AskedOne(d.commands, c, id, t.period);
          MovesNot(Token(d, id), Calls(d.fired, id), t);
      }
      TimerIsCalledOnTime(e, es[1..], id, t);
      MovesOn(Token(d, id), Token(e, id), Token(r, id), Calls(d.fired, id), Calls(e.fired, id), Calls(r.fired, id), t);
    }
  }

  ghost predicate OnTime(s: seq<Fire>) {
    forall i | 0 <= i < |s| :: s[i].due <= s[i].at
  }

  /** No timer is ever called before it is due. */
  lemma {:induction false} NeverEarly(d: Daemon, es: seq<Event>)
    requires Fine(d) && OnTime(d.fired) && Run(d, es).Some?
    ensures OnTime(Run(d, es).value.fired)
    decreases |es|
  {
    hide Put, Drain, Without;
    if |es| > 0 {
      var e := Step(d, es[0]).value;
      StepKeeps(d, es[0]);
      StepOnTime(d, es[0]);
      NeverEarly(e, es[1..]);
    }
  }

  lemma StepOnTime(d: Daemon, e: Event)
    requires Fine(d) && OnTime(d.fired) && Step(d, e).Some?
    ensures OnTime(Step(d, e).value.fired)
  {
    hide Put, Without, Of, Sample;
    match e
    case Processing(n) =>
      if Process(d, n) == Sample(d, n) {
        SampleOnTime(d, n);
      }
    case Receiving(n) =>
      if d.commands != [] {
        RemovedFine(d);
        SampleOnTime(d.(commands := d.commands[1..], pending := Without(d.pending, d.commands[0].id)), n);
      }
    case Post(c) =>
  }

  lemma SampleOnTime(d: Daemon, n: int)
    requires Fine(d) && OnTime(d.fired) && Sample(d, n).Some?
    ensures OnTime(Sample(d, n).value.fired)
  {
    hide Drain;
    var limit := n / WRAP * WRAP;
    DrainInOrder(d.pending, d.timers, limit);
  }

  // ----- no expiry is missed -----

  /** The commands are carried out, and nothing that is listed is due by n. */
  ghost predicate Idle(d: Daemon, n: int) {
    d.commands == [] && (forall i | 0 <= i < |d.pending| :: n < d.pending[i].due)
  }

  ghost predicate CalledBy(s: seq<Fire>, n: int) {
    forall i | 0 <= i < |s| :: s[i].at <= n
  }

  ghost predicate StepsBy(es: seq<Event>, n: int) {
    forall i | 0 <= i < |es| && !es[i].Post? :: es[i].n <= n
  }

  /** When a run up to time n leaves the daemon idle, the timer has been called for its k-th expiry
      x + k * period exactly if that is no later than n: none is missed, and none is early.  For a
      one-shot timer, k is 0. */
  lemma CalledExactlyWhenDue(d: Daemon, es: seq<Event>, id: int, t: Timer, x: int, n: int, k: nat)
    requires Fine(d) && Undisturbed(d, id, t) && Run(d, es).Some?
    requires forall i | 0 <= i < |es| && es[i].Post? :: es[i].c.id != id
    requires StepsBy(es, n) && OnTime(d.fired) && CalledBy(d.fired, n) && Idle(Run(d, es).value, n)
    requires Token(d, id) == [x] && (t.autoReload || k == 0)
    ensures var f, g := Calls(d.fired, id), Calls(Run(d, es).value.fired, id);
            && (x + k * t.period <= n <==> |f| + k < |g|)
            && (|f| + k < |g| ==> g[|f| + k] == x + k * t.period)
  {
    hide Calls, Of, Run, Asked, Progression, OnTime, CalledBy, StepsBy;
    var r := Run(d, es).value;
    TimerIsCalledOnTime(d, es, id, t);
    NeverEarly(d, es);
    RunCalledBy(d, es, n);
    CallsDue(r.fired, id, n);
    NothingDue(r.pending, id, n);
    AskedNone(id, t.period);
    LastCallExactly(x, Token(r, id), Calls(d.fired, id), Calls(r.fired, id), t, n, k);
  }

  lemma LastCallExactly(x: int, y: seq<int>, f: seq<int>, g: seq<int>, t: Timer, n: int, k: nat)
    requires Moves([x], y, f, g, t) && (t.autoReload || k == 0) && t.period > 0
    requires forall i | 0 <= i < |y| :: n < y[i]
    requires forall i | 0 <= i < |g| :: g[i] <= n
    ensures x + k * t.period <= n <==> |f| + k < |g|
    ensures |f| + k < |g| ==> g[|f| + k] == x + k * t.period
  {
    var c := |g| - |f|;
    if k < c {
      assert g[|f| + k] == Progression(x, t.period, c)[k];
    } else if t.autoReload {
      Multiples(c, k, t.period);
      assert y[0] == x + c * t.period;
    } else {
      assert y[0] == x;
    }
  }

  lemma {:induction false} Multiples(c: nat, k: nat, p: nat)
    requires c <= k
    ensures c * p <= k * p
  {
    if c < k {
      Multiples(c, k - 1, p);
      assert k * p == (k - 1) * p + p;
    }
  }

  lemma AskedNone(id: int, p: int)
    ensures Asked([], id, p) == []
  {
  }

  lemma {:induction false} NothingDue(s: seq<Alarm>, id: int, n: int)
    requires forall i | 0 <= i < |s| :: n < s[i].due
    ensures forall i | 0 <= i < |Of(s, id)| :: n < Of(s, id)[i]
  {
    if s != [] {
      NothingDue(s[1..], id, n);
    }
  }

  lemma {:induction false} CallsDue(s: seq<Fire>, id: int, n: int)
    requires OnTime(s) && CalledBy(s, n)
    ensures forall i | 0 <= i < |Calls(s, id)| :: Calls(s, id)[i] <= n
  {
    if s != [] {
      CallsDue(s[1..], id, n);
    }
  }

  lemma {:induction false} RunCalledBy(d: Daemon, es: seq<Event>, n: int)
    requires Fine(d) && CalledBy(d.fired, n) && StepsBy(es, n) && Run(d, es).Some?
    ensures CalledBy(Run(d, es).value.fired, n)
    decreases |es|
  {
    hide Step;
    if |es| > 0 {
      StepKeeps(d, es[0]);
      StepCalledBy(d, es[0], n);
      RunCalledBy(Step(d, es[0]).value, es[1..], n);
    }
  }

  lemma StepCalledBy(d: Daemon, e: Event, n: int)
    requires Fine(d) && CalledBy(d.fired, n) && (!e.Post? ==> e.n <= n) && Step(d, e).Some?
    ensures CalledBy(Step(d, e).value.fired, n)
  {
    hide Put, Without, Drain, Of;
    if e.Receiving? && d.commands != [] {
      RemovedFine(d);
    }
  }

  // ----- what a command does to its timer -----

  /** The command at the head of the queue, and no other there for the same timer. */
  ghost predicate Heads(c: Command, d: Daemon) {
    d.commands != [] && d.commands[0] == c && forall i | 1 <= i < |d.commands| :: d.commands[i].id != c.id
  }

  /** What a task asks for waits in the queue exactly if there is room, and is taken up first if nothing
      waited before it. */
  lemma PostMeans(d: Daemon, c: Command)
    requires Fine(d) && KnownTimer(c.id, d.timers)
    ensures Step(d, Post(c)) == Some(if |d.commands| < 4 then d.(commands := d.commands + [c]) else d)
    ensures d.commands == [] ==> Heads(c, Step(d, Post(c)).value)
  {
  }

  lemma {:induction false} AskedForNothing(s: seq<Command>, id: int, p: int)
    requires forall i | 0 <= i < |s| :: s[i].id != id
    ensures Asked(s, id, p) == [] && Quiet(s, id)
  {
    if s != [] {
      AskedForNothing(s[1..], id, p);
    }
  }

  /** What is left of a timer when its command is taken from the queue and the time is sampled. */
  lemma TakenUp(d: Daemon, c: Command, n: int) returns (e: Daemon)
    requires Fine(d) && Heads(c, d) && Receive(d, n).Some?
    ensures Fine(e) && KnownTimer(c.id, e.timers) && e.timers == d.timers && Of(e.pending, c.id) == []
    ensures Receive(d, n) == Act(e, c, n)
    ensures Calls(e.fired, c.id) == Calls(d.fired, c.id) && Undisturbed(e, c.id, d.timers[c.id])
    ensures Token(e, c.id) == []
  {
    hide Act, Sample, Of, Asked, Calls, Moves, Ordered, Single, Known;
    RemovedFine(d);
    var u := d.(commands := d.commands[1..], pending := Without(d.pending, c.id));
    var t := d.timers[c.id];
    AskedForNothing(u.commands, c.id, t.period);
    assert u.commands == d.commands[1..];
    e := Sample(u, n).value;
    SampleKeeps(u, n);
    SampleKeepsUnlisted(u, n, c.id);
    SampleAdvances(u, n, c.id, t);
    NoMove(Token(u, c.id), Token(e, c.id), Calls(u.fired, c.id), Calls(e.fired, c.id), t);
  }

  lemma ListedOnce(s: seq<Alarm>, a: Alarm)
    requires Of(s, a.id) == []
    ensures Of(Put(s, a), a.id) == [a.due]
  {
    OfPut(s, a, a.id);
  }

  /** A new period p, taken up at time n: the timer is active and expires next at n + p. */
  lemma ChangePeriodMeans(d: Daemon, id: int, p: word, n: int)
    requires Fine(d) && Heads(ChangePeriod(id, p), d) && Receive(d, n).Some?
    ensures var r := Receive(d, n).value;
            && p > 0 && id in d.timers && id in r.timers
            && r.timers[id].period == p && r.timers[id].active && r.timers[id].autoReload == d.timers[id].autoReload
            && Of(r.pending, id) == [n + p] && Calls(r.fired, id) == Calls(d.fired, id)
            && Token(r, id) == [n + p] && Undisturbed(r, id, r.timers[id])
  {
    hide Sample, Receive, Put, Of, Calls, Asked, Fine, Heads;
    var e := TakenUp(d, ChangePeriod(id, p), n);
    ListedOnce(e.pending, Alarm(n + p, id));
    QuietAsks(e, id, p);
  }

  lemma QuietAsks(e: Daemon, id: int, p: int)
    requires KnownTimer(id, e.timers) && Token(e, id) == [] && Quiet(e.commands, id)
    ensures Asked(e.commands, id, p) == []
  {
    SameNumberAsked(e.commands, id, p, e.timers[id].period);
  }

  lemma {:induction false} SameNumberAsked(s: seq<Command>, id: int, p: int, q: int)
    ensures |Asked(s, id, p)| == |Asked(s, id, q)|
  {
    if s != [] {
      SameNumberAsked(s[1..], id, p, q);
    }
  }

  /** Stopped or deleted: the timer is inactive, in no list, and not called. */
  lemma StopMeans(d: Daemon, c: Command, n: int)
    requires Fine(d) && (c.Stop? || c.Delete?) && Heads(c, d) && Receive(d, n).Some?
    ensures var r := Receive(d, n).value;
            && c.id in d.timers && c.id in r.timers
            && r.timers[c.id] == d.timers[c.id].(active := false)
            && Of(r.pending, c.id) == [] && Calls(r.fired, c.id) == Calls(d.fired, c.id)
            && Token(r, c.id) == [] && Undisturbed(r, c.id, r.timers[c.id])
  {
    hide Sample, Receive, Put, Of, Calls, Asked, Fine, Heads;
    var e := TakenUp(d, c, n);
  }

  /** Started at time t: the timer expires at t + period, either later, or now if that has come. */
  lemma StartMeans(d: Daemon, id: int, t: int, n: int)
    requires Fine(d) && Heads(Start(id, t), d) && Receive(d, n).Some?
    ensures id in d.timers && id in Receive(d, n).value.timers
    ensures var r, due := Receive(d, n).value, t + d.timers[id].period;
            && r.timers[id] == d.timers[id].(active := true)
            && Of(r.pending, id) == (if n < due then [due] else [])
            && Calls(r.fired, id) == Calls(d.fired, id) + (if n < due then [] else [due])
            && Token(r, id) == (if n < due then [due]
                                else if r.timers[id].autoReload then [due + r.timers[id].period] else [])
            && Undisturbed(r, id, r.timers[id])
            && Moves([due], Token(r, id), Calls(d.fired, id), Calls(r.fired, id), r.timers[id])
  {
    hide Sample, Receive, Put, Of, Calls, Asked, Fine, Heads, Moves;
    var e := TakenUp(d, Start(id, t), n);
    var due := t + d.timers[id].period;
    ListedOnce(e.pending, Alarm(due, id));
    CallsOne(e.fired, Alarm(due, id), n, id);
    AskedOne(e.commands, Start(id, due), id, d.timers[id].period);
    StartAdvances(e, Start(id, t), n, id, d.timers[id]);
    var r := Receive(d, n).value;
    SameMoves([due], Token(r, id), Calls(d.fired, id), Calls(r.fired, id), d.timers[id], r.timers[id]);
  }

  lemma SameMoves(x: seq<int>, y: seq<int>, f: seq<int>, g: seq<int>, t: Timer, u: Timer)
    requires Moves(x, y, f, g, t) && t.period == u.period && t.autoReload == u.autoReload
    ensures Moves(x, y, f, g, u)
  {
  }

  /** When the timer of a command that starts it expires first, and how it reads from then on. */
  function FirstExpiry(d: Daemon, c: Command, n: int): int
    requires c.id in d.timers
  {
    if c.Start? then c.time + d.timers[c.id].period else if c.ChangePeriod? then n + c.period else n
  }

  function Restarted(t: Timer, c: Command): Timer
    requires c.ChangePeriod? ==> c.period > 0
  {
    if c.ChangePeriod? then t.(active := true, period := c.period) else t.(active := c.Start?)
  }

  /** A run that begins with a command: from then on, if no task commands the timer again, a
      reloading timer is called for x, x + period, ... and nothing else, where x is the expiry that
      the command asks for; a one-shot timer is called at most once, for x; and a timer that has been
      stopped or deleted is not called. */
  lemma CommandedTimerIsCalledOnTime(d: Daemon, c: Command, n: int, es: seq<Event>)
    requires Fine(d) && Heads(c, d) && Run(d, [Receiving(n)] + es).Some?
    requires forall i | 0 <= i < |es| && es[i].Post? :: es[i].c.id != c.id
    ensures c.id in d.timers && (c.ChangePeriod? ==> c.period > 0)
    ensures var r, t := Run(d, [Receiving(n)] + es).value, Restarted(d.timers[c.id], c);
            && Undisturbed(r, c.id, t)
            && Moves(if c.Start? || c.ChangePeriod? then [FirstExpiry(d, c, n)] else [], Token(r, c.id),
                     Calls(d.fired, c.id), Calls(r.fired, c.id), t)
  {
    hide Receive, Calls, Of, Asked, Progression, Heads, Moves, Act, Sample, Run;
    RunBegins(d, n, es);
    CommandMoves(d, c, n);
    var e, t := Receive(d, n).value, Restarted(d.timers[c.id], c);
    TimerIsCalledOnTime(e, es, c.id, t);
    var r := Run(e, es).value;
    MovesOn(if c.Start? || c.ChangePeriod? then [FirstExpiry(d, c, n)] else [], Token(e, c.id), Token(r, c.id),
            Calls(d.fired, c.id), Calls(e.fired, c.id), Calls(r.fired, c.id), t);
  }

  lemma RunBegins(d: Daemon, n: int, es: seq<Event>)
    requires Fine(d) && Run(d, [Receiving(n)] + es).Some?
    ensures Receive(d, n).Some? && Fine(Receive(d, n).value)
    ensures Run(d, [Receiving(n)] + es) == Run(Receive(d, n).value, es)
  {
    hide Receive;
    assert ([Receiving(n)] + es)[1..] == es;
    StepKeeps(d, Receiving(n));
  }

  lemma CommandMoves(d: Daemon, c: Command, n: int)
    requires Fine(d) && Heads(c, d) && Receive(d, n).Some?
    ensures c.id in d.timers && (c.ChangePeriod? ==> c.period > 0) && c.id in Receive(d, n).value.timers
    ensures var e, t := Receive(d, n).value, Restarted(d.timers[c.id], c);
            && Undisturbed(e, c.id, t)
            && Moves(if c.Start? || c.ChangePeriod? then [FirstExpiry(d, c, n)] else [], Token(e, c.id),
                     Calls(d.fired, c.id), Calls(e.fired, c.id), t)
  {
    hide Receive, Calls, Of, Asked, Progression, Heads, Moves, Fine, Quiet;
    match c
    case Start(id, time) =>
      StartMeans(d, id, time, n);
    case ChangePeriod(id, p) =>
      ChangePeriodMeans(d, id, p, n);
      MovesNot([n + p], Calls(d.fired, id), Receive(d, n).value.timers[id]);
    case _ =>
      StopMeans(d, c, n);
      MovesNot([], Calls(d.fired, c.id), Receive(d, n).value.timers[c.id]);
  }

  /** So a timer that has been started or given a new period is called for its k-th expiry, counted
      from that command, exactly when it is due. */
  lemma CommandedTimerCalledExactlyWhenDue(d: Daemon, c: Command, n: int, es: seq<Event>, last: int, k: nat)
    requires Fine(d) && Heads(c, d) && (c.Start? || c.ChangePeriod?)
    requires forall i | 0 <= i < |es| && es[i].Post? :: es[i].c.id != c.id
    requires Run(d, [Receiving(n)] + es).Some? && Idle(Run(d, [Receiving(n)] + es).value, last)
    requires n <= last && StepsBy(es, last) && OnTime(d.fired) && CalledBy(d.fired, last)
    requires c.id in d.timers && (c.ChangePeriod? ==> c.period > 0) && (d.timers[c.id].autoReload || k == 0)
    ensures var r, p := Run(d, [Receiving(n)] + es).value, if c.Start? then d.timers[c.id].period else c.period;
            var f, g := Calls(d.fired, c.id), Calls(r.fired, c.id);
            var due := (if c.Start? then c.time else n) + p + k * p;
            (due <= last <==> |f| + k < |g|) && (|f| + k < |g| ==> g[|f| + k] == due)
  {
    hide Receive, Calls, Of, Run, Asked, Progression, OnTime, CalledBy, Heads, Quiet;
    CommandedTimerIsCalledOnTime(d, c, n, es);
    var r, t := Run(d, [Receiving(n)] + es).value, Restarted(d.timers[c.id], c);
    NeverEarly(d, [Receiving(n)] + es);
    BeginsBy(n, es, last);
    RunCalledBy(d, [Receiving(n)] + es, last);
    CallsDue(r.fired, c.id, last);
    NothingDue(r.pending, c.id, last);
    AskedNone(c.id, t.period);
    LastCallExactly(FirstExpiry(d, c, n), Token(r, c.id), Calls(d.fired, c.id), Calls(r.fired, c.id), t, last, k);
  }

  lemma BeginsBy(n: int, es: seq<Event>, last: int)
    requires n <= last && StepsBy(es, last)
    ensures StepsBy([Receiving(n)] + es, last)
  {
  }

  // ----- two promises the code keeps only under a condition -----

  /** Noticing a wrap ends in the failed assertion exactly if the queue has no room for the
      restarts of all reloading timers that are still listed for before the wrap. */
  lemma SampleSucceedsExactly(d: Daemon, n: int)
    requires Fine(d)
    ensures Sample(d, n).Some? <==>
            n / WRAP == d.last / WRAP || |d.commands| + Reloading(d.pending, d.timers, n / WRAP * WRAP) <= 4
  {
    hide Drain, Reloading;
    RestartsCounted(d.pending, d.timers, n / WRAP * WRAP);
  }

  /** Taking up a command ends in a failed assertion exactly for a new period of 0, or if the queue
      has no room for the restarts of a wrap and the one of a reloading timer started too late. */
  lemma ReceiveSucceedsExactly(d: Daemon, c: Command, n: int)
    requires Fine(d) && d.commands != [] && c == d.commands[0] && |d.commands| <= 4
    ensures KnownTimer(c.id, d.timers) && Known(Without(d.pending, c.id), d.timers)
    ensures var limit, t := n / 0x1_0000_0000 * 0x1_0000_0000, d.timers[c.id];
            var restarts := if limit == d.last / 0x1_0000_0000 * 0x1_0000_0000 then 0
                            else Reloading(Without(d.pending, c.id), d.timers, limit);
            var late := if c.Start? && t.autoReload && c.time + t.period <= n then 1 else 0;
            Receive(d, n).Some? <==> !(c.ChangePeriod? && c.period == 0) && |d.commands| - 1 + restarts + late <= 4
  {
    hide Drain, Reloading, Of, Without, Single, Ordered, Put;
    RemovedFine(d);
    var u := d.(commands := d.commands[1..], pending := Without(d.pending, c.id));
    RestartsCounted(u.pending, d.timers, n / WRAP * WRAP);
  }

  predicate ReloadsLate(d: Daemon, n: int) {
    d.pending != [] && (var a := d.pending[0];
      a.id in d.timers && d.timers[a.id].autoReload && a.due + d.timers[a.id].period <= n)
  }

  /** And so does processing: for the restarts of a wrap, or for an expiry that comes a whole period
      late while the queue is full. */
  lemma ProcessSucceedsExactly(d: Daemon, n: int)
    requires Fine(d) && |d.commands| <= 4
    ensures var limit := n / 0x1_0000_0000 * 0x1_0000_0000;
            Process(d, n).Some? <==>
            if limit != d.last / 0x1_0000_0000 * 0x1_0000_0000
            then |d.commands| + Reloading(d.pending, d.timers, limit) <= 4
            else |d.commands| < 4 || !ReloadsLate(d, n)
  {
    hide Drain, Reloading, Put;
    SampleSucceedsExactly(d, n);
    if d.pending != [] {
      assert KnownTimer(d.pending[0].id, d.timers);
    }
  }

  /** What is due is called: processing at time n calls the timer at the head of the timeline if its
      expiry has come, and noticing a wrap leaves nothing that was due before it. */
  lemma ProcessMeans(d: Daemon, n: int)
    requires Fine(d) && Process(d, n).Some?
    ensures var r, limit := Process(d, n).value, n / 0x1_0000_0000 * 0x1_0000_0000;
            && r.last == n
            && if limit != d.last / 0x1_0000_0000 * 0x1_0000_0000
               then forall i | 0 <= i < |r.pending| :: limit <= r.pending[i].due
               else if d.pending != [] && d.pending[0].due <= n
               then r.fired == d.fired + [Fire(d.pending[0].due, d.pending[0].id, n)]
               else r == d.(last := n)
  {
    hide Drain, Put, Of, Single;
    if n / WRAP != d.last / WRAP {
      DrainInOrder(d.pending, d.timers, n / WRAP * WRAP);
    }
  }

  /** Callbacks happen when the daemon runs: all that a step adds carry the time of that step. */
  lemma CallbacksAreNow(d: Daemon, e: Event)
    requires Fine(d) && Step(d, e).Some?
    ensures var f, g := d.fired, Step(d, e).value.fired;
            && |f| <= |g| && g[..|f|] == f
            && (forall i | |f| <= i < |g| :: !e.Post? && g[i].at == e.n)
  {
    hide Put, Without, Drain, Of;
    if e.Receiving? && d.commands != [] {
      RemovedFine(d);
    }
  }

  /** The queue never holds more than four commands. */
  lemma {:induction false} QueueIsBounded(d: Daemon, es: seq<Event>)
    requires Fine(d) && |d.commands| <= 4 && Run(d, es).Some?
    ensures |Run(d, es).value.commands| <= 4
    decreases |es|
  {
    hide Drain, Put, Without, Of, Single, Ordered;
    if |es| > 0 {
      StepKeeps(d, es[0]);
      if es[0].Receiving? && d.commands != [] {
        RemovedFine(d);
      }
      QueueIsBounded(Step(d, es[0]).value, es[1..]);
    }
  }

  predicate SameEpoch(d: Daemon, e: Event) {
    e.Processing? && e.n / WRAP == d.last / WRAP
  }

  /** An expired one-shot timer is meant to read as dormant.  It does exactly if the daemon calls
      it off the head of the current list, and not while switching lists or for a late start. */
  lemma OneShotIsDormantExactly(d: Daemon, e: Event, id: int, t: Timer)
    requires Fine(d) && Undisturbed(d, id, t) && !t.autoReload && d.timers[id].active
    requires e.Post? ==> e.c.id != id
    requires Step(d, e).Some? && Calls(Step(d, e).value.fired, id) != Calls(d.fired, id)
    ensures !Step(d, e).value.timers[id].active <==> SameEpoch(d, e)
  {
    hide Of, Calls, Drain, Put, Single, Ordered;
    match e
    case Processing(n) =>
      if SameEpoch(d, e) {
        assert d.pending != [] ==> KnownTimer(d.pending[0].id, d.timers);
        if d.pending != [] && d.pending[0].due <= n {
          CallsOne(d.fired, d.pending[0], n, id);
        }
      }
    case Receiving(n) =>
      if d.commands != [] {
        RemovedFine(d);
        SampleKeeps(d.(commands := d.commands[1..], pending := Without(d.pending, d.commands[0].id)), n);
      }
    case Post(c) =>
  }

  // ----- the inputs that show it -----

  /** Timers k, k - 1, ... 1, due one tick after the other up to the wrap. */
  function Alarms(k: nat): seq<Alarm> {
    if k == 0 then [] else [Alarm(WRAP - k, k)] + Alarms(k - 1)
  }

  predicate Reloads(timers: Timers, id: int) {
    KnownTimer(id, timers) && timers[id].autoReload
  }

  lemma {:induction false} AlarmsReload(k: nat, timers: Timers)
    requires forall id | 1 <= id <= k :: Reloads(timers, id)
    ensures Known(Alarms(k), timers) && Reloading(Alarms(k), timers, WRAP) == k
  {
    if k > 0 {
      AlarmsReload(k - 1, timers);
      assert Reloads(timers, k);
      assert Alarms(k)[1..] == Alarms(k - 1);
    }
  }

  lemma {:induction false} AlarmsOrdered(k: nat)
    ensures Ordered(Alarms(k)) && (Alarms(k) != [] ==> Alarms(k)[0].due >= WRAP - k)
  {
    if k > 0 {
      AlarmsOrdered(k - 1);
    }
  }

  lemma {:induction false} AlarmsSingle(k: nat, id: int)
    ensures |Of(Alarms(k), id)| <= if 1 <= id <= k then 1 else 0
  {
    if k > 0 {
      AlarmsSingle(k - 1, id);
      assert Alarms(k)[1..] == Alarms(k - 1);
    }
  }

  const RELOADING := Timer(7, true, true)
  const FIVE: Timers := map[1 := RELOADING, 2 := RELOADING, 3 := RELOADING, 4 := RELOADING, 5 := RELOADING]

  /** Five reloading timers that are due just before a wrap, more than the queue holds. */
  lemma FiveReloadsFail()
    ensures var d := Daemon(Alarms(5), FIVE, [], [], WRAP - 10);
            Fine(d) && Sample(d, WRAP) == None
  {
    hide Reloading, Of, Alarms;
    AlarmsReload(5, FIVE);
    AlarmsOrdered(5);
    forall id
      ensures |Of(Alarms(5), id)| <= 1
    {
      AlarmsSingle(5, id);
    }
    SampleSucceedsExactly(Daemon(Alarms(5), FIVE, [], [], WRAP - 10), WRAP);
  }

  /** A one-shot timer due just before a wrap that is noticed late is called and stays active. */
  lemma OneShotStaysActive()
    ensures var t := Timer(10, false, true);
            var d, e := Daemon([Alarm(WRAP - 5, 7)], map[7 := t], [], [], WRAP - 10), Processing(WRAP + 1);
            && Fine(d) && Undisturbed(d, 7, t) && Step(d, e).Some?
            && Step(d, e).value.fired == [Fire(WRAP - 5, 7, WRAP + 1)] && Step(d, e).value.timers[7].active
  {
    var a, t := Alarm(WRAP - 5, 7), Timer(10, false, true);
    var timers := map[7 := t];
    assert Known([a], timers) by {
      assert KnownTimer(7, timers);
    }
    forall id
      ensures |Of([a], id)| <= 1
    {
      OfOne(a, id);
    }
    DrainOne([a], timers, WRAP);
    DrainNone([], timers, WRAP);
  }
}
