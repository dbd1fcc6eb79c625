/** What the software timers of tests/FreeRTOS/timers.c mean in unbounded time: one timeline of
 *  alarms in order of expiry, and a daemon that works through it. */
module TimerModel {
  import opened ListModel
  import opened Wrappers

  const WRAP := 0x1_0000_0000          // the tick count is a uint32_t
  const QUEUE_LENGTH := 4              // configTIMER_QUEUE_LENGTH

  /** xTimerPeriodInTicks and the two bits of ucStatus. */
  datatype Timer = Timer(period: word, autoReload: bool, active: bool)

  type Timers = map<int, Timer>

  // ----- where a timer that is started goes -----

  datatype Route = ProcessNow | CurrentList | OverflowList

  /** The decision of prvInsertTimerInActiveList. */
  function RouteOf(xNextExpiryTime: word, xTimeNow: word, xCommandTime: word, period: word): Route {
    if xNextExpiryTime <= xTimeNow then
      if (xTimeNow - xCommandTime) % WRAP >= period then ProcessNow else OverflowList
    else
      if xTimeNow < xCommandTime && xNextExpiryTime >= xCommandTime then ProcessNow else CurrentList
  }

  /** The route in unbounded time: a command of time c is processed at time n. */
  function RouteAt(c: int, period: word, n: int): Route {
    RouteOf((c + period) % WRAP, n % WRAP, c % WRAP, period)
  }

  /** A command less than a wrap old is taken for expired exactly if it is, and is otherwise
      listed by the wrap epoch it expires in. */
  lemma RouteExactly(c: int, period: word, n: int)
    requires 0 < period && 0 <= n - c < WRAP
    ensures RouteAt(c, period, n) == ProcessNow <==> c + period <= n
    ensures RouteAt(c, period, n) == CurrentList <==> n < c + period && (c + period) / WRAP == n / WRAP
    ensures RouteAt(c, period, n) == OverflowList <==> n < c + period && (c + period) / WRAP == n / WRAP + 1
  {
  }

  /** The time that the tick count of time c is taken for at time n: the latest one up to n. */
  function Seen(c: int, n: int): (t: int)
    ensures t % WRAP == c % WRAP && 0 <= n - t < WRAP
  {
    n - (n - c) % WRAP
  }

  lemma SeenExactly(c: int, n: int)
    ensures Seen(c, n) == c <==> 0 <= n - c < WRAP
  {
  }

  /** Of an older command the route forgets whole wraps: the verdict is right exactly if the
      remaining age is at least the period. */
  lemma OldCommandExactly(c: int, period: word, n: int)
    requires 0 < period && c <= n
    ensures (RouteAt(c, period, n) == ProcessNow <==> c + period <= n) <==> (n - c < WRAP || (n - c) % WRAP >= period)
  {
    var d := Seen(c, n);
    assert (d + period) % WRAP == (c + period) % WRAP;
    RouteExactly(d, period, n);
  }

  /** The input that shows it: a command of age WRAP, expired long ago, is listed as still running. */
  lemma OldCommandMisjudged()
    ensures RouteAt(0, 10, WRAP) != ProcessNow && 0 + 10 <= WRAP
  {
  }

  // ----- the timeline -----

  /** Timer id expires at time due. */
  datatype Alarm = Alarm(due: int, id: int)

  function Place(s: seq<Alarm>, due: int): (k: nat)
    ensures k <= |s| && (forall j | 0 <= j < k :: s[j].due <= due) && (k < |s| ==> due < s[k].due)
  {
    if s == [] || due < s[0].due then 0 else 1 + Place(s[1..], due)
  }

  lemma PlaceIs(s: seq<Alarm>, due: int, k: nat)
    requires k <= |s| && (forall j | 0 <= j < k :: s[j].due <= due) && (k < |s| ==> due < s[k].due)
    ensures Place(s, due) == k
  {
  }

  function Put(s: seq<Alarm>, a: Alarm): seq<Alarm> {
    InsertAt(s, Place(s, a.due), a)
  }

  ghost predicate Ordered(s: seq<Alarm>) {
    forall i, j | 0 <= i < j < |s| :: s[i].due <= s[j].due
  }

  lemma PutKeepsOrder(s: seq<Alarm>, a: Alarm)
    requires Ordered(s)
    ensures Ordered(Put(s, a))
  {
    hide Place;
    var k, r := Place(s, a.due), Put(s, a);
    forall i, j | 0 <= i < j < |r|
      ensures r[i].due <= r[j].due
    {
      assert i == k && k < |s| ==> s[k].due <= s[j - 1].due;
    }
  }

  /** The expiry times of timer id in s. */
  function Of(s: seq<Alarm>, id: int): seq<int> {
    if s == [] then [] else if s[0].id == id then [s[0].due] + Of(s[1..], id) else Of(s[1..], id)
  }

  lemma {:induction false} OfConcat(a: seq<Alarm>, b: seq<Alarm>, id: int)
    ensures Of(a + b, id) == Of(a, id) + Of(b, id)
  {
    if a == [] {
      assert a + b == b;
    } else {
      assert (a + b)[0] == a[0] && (a + b)[1..] == a[1..] + b;
      OfConcat(a[1..], b, id);
      assert Of(a, id) + Of(b, id) == (if a[0].id == id then [a[0].due] else []) + (Of(a[1..], id) + Of(b, id));
    }
  }

  lemma OfHead(s: seq<Alarm>, id: int)
    requires s != []
    ensures Of(s, id) == if s[0].id == id then [s[0].due] + Of(s[1..], id) else Of(s[1..], id)
  {
  }

  lemma OfOne(a: Alarm, id: int)
    ensures Of([a], id) == if a.id == id then [a.due] else []
  {
  }

  lemma OfNone(id: int)
    ensures Of([], id) == []
  {
  }

  lemma OfPut(s: seq<Alarm>, a: Alarm, id: int)
    ensures a.id != id ==> Of(Put(s, a), id) == Of(s, id)
    ensures a.id == id && Of(s, id) == [] ==> Of(Put(s, a), id) == [a.due]
  {
    hide Place;
    var k := Place(s, a.due);
    assert s == s[..k] + s[k..];
    OfConcat(s[..k], s[k..], id);
    OfConcat(s[..k] + [a], s[k..], id);
    OfConcat(s[..k], [a], id);
  }

  /** uxListRemove of the timer's list item. */
  function Without(s: seq<Alarm>, id: int): seq<Alarm> {
    if s == [] then [] else if s[0].id == id then Without(s[1..], id) else [s[0]] + Without(s[1..], id)
  }

  lemma {:induction false} OfWithout(s: seq<Alarm>, gone: int, id: int)
    ensures Of(Without(s, gone), id) == if id == gone then [] else Of(s, id)
  {
    if s != [] {
      OfWithout(s[1..], gone, id);
      OfConcat(if s[0].id == gone then [] else [s[0]], Without(s[1..], gone), id);
    }
  }

  lemma {:induction false} WithoutConcat(a: seq<Alarm>, b: seq<Alarm>, id: int)
    ensures Without(a + b, id) == Without(a, id) + Without(b, id)
  {
    if a == [] {
      assert a + b == b;
    } else {
      assert (a + b)[0] == a[0] && (a + b)[1..] == a[1..] + b;
      WithoutConcat(a[1..], b, id);
      assert Without(a, id) + Without(b, id)
          == (if a[0].id == id then [] else [a[0]]) + (Without(a[1..], id) + Without(b, id));
    }
  }

  lemma {:induction false} WithoutIsPart(s: seq<Alarm>, id: int)
    ensures forall i | 0 <= i < |Without(s, id)| :: Without(s, id)[i] in s
  {
    if s != [] {
      WithoutIsPart(s[1..], id);
      assert forall a | a in s[1..] :: a in s;
    }
  }

  lemma {:induction false} WithoutKeepsOrder(s: seq<Alarm>, id: int)
    requires Ordered(s)
    ensures Ordered(Without(s, id))
  {
    if s != [] {
      WithoutKeepsOrder(s[1..], id);
      WithoutIsPart(s[1..], id);
    }
  }

  lemma WithoutKeeps(s: seq<Alarm>, id: int, timers: Timers)
    requires Ordered(s) && Known(s, timers)
    ensures Ordered(Without(s, id)) && Known(Without(s, id), timers)
  {
    hide Without;
    WithoutKeepsOrder(s, id);
    WithoutIsPart(s, id);
  }

  /** Every listed timer exists and has a period. */
  ghost predicate Known(s: seq<Alarm>, timers: Timers) {
    forall i | 0 <= i < |s| :: KnownTimer(s[i].id, timers)
  }

  predicate KnownTimer(id: int, timers: Timers) {
    id in timers && timers[id].period > 0
  }

  /** No timer is listed twice. */
  ghost predicate Single(s: seq<Alarm>) {
    forall id :: |Of(s, id)| <= 1
  }

  // ----- working off everything that is due before a limit -----

  function Weight(a: Alarm, limit: int): nat {
    if a.due < limit then limit - a.due else 0
  }

  function Measure(s: seq<Alarm>, limit: int): nat {
    if s == [] then 0 else Weight(s[0], limit) + Measure(s[1..], limit)
  }

  lemma {:induction false} MeasureConcat(a: seq<Alarm>, b: seq<Alarm>, limit: int)
    ensures Measure(a + b, limit) == Measure(a, limit) + Measure(b, limit)
  {
    if a == [] {
      assert a + b == b;
    } else {
      assert (a + b)[1..] == a[1..] + b;
      MeasureConcat(a[1..], b, limit);
    }
  }

  lemma MeasurePut(s: seq<Alarm>, a: Alarm, limit: int)
    ensures Measure(Put(s, a), limit) == Measure(s, limit) + Weight(a, limit)
  {
    hide Place;
    var k := Place(s, a.due);
    assert s == s[..k] + s[k..];
    MeasureConcat(s[..k], s[k..], limit);
    MeasureConcat(s[..k] + [a], s[k..], limit);
    MeasureConcat(s[..k], [a], limit);
  }

  ghost predicate HasDue(s: seq<Alarm>, timers: Timers, limit: int) {
    Known(s, timers) && s != [] && s[0].due < limit
  }

  /** The first alarm goes off again before the limit. */
  predicate Repeats(a: Alarm, timers: Timers, limit: int)
    requires KnownTimer(a.id, timers)
  {
    timers[a.id].autoReload && a.due + timers[a.id].period < limit
  }

  function Reloaded(a: Alarm, timers: Timers): Alarm
    requires KnownTimer(a.id, timers)
  {
    a.(due := a.due + timers[a.id].period)
  }

  /** The timeline after the first alarm has gone off. */
  function Next(s: seq<Alarm>, timers: Timers, limit: int): (r: seq<Alarm>)
    requires HasDue(s, timers, limit)
    ensures Known(r, timers) && Measure(r, limit) < Measure(s, limit)
  {
    MeasurePut(s[1..], Reloaded(s[0], timers), limit);
    if Repeats(s[0], timers, limit) then Put(s[1..], Reloaded(s[0], timers)) else s[1..]
  }

  /** The alarm that a restart command is sent for, if one is. */
  function Restart(a: Alarm, timers: Timers, limit: int): (r: seq<Alarm>)
    requires KnownTimer(a.id, timers)
    ensures r == [] || r == [a]
  {
    if timers[a.id].autoReload && !Repeats(a, timers, limit) then [a] else []
  }

  /** What is left, what has gone off, and the last alarms of the timers to be restarted. */
  datatype Drained = Drained(rest: seq<Alarm>, fired: seq<Alarm>, restarts: seq<Alarm>)

  function Drain(s: seq<Alarm>, timers: Timers, limit: int): Drained
    requires Known(s, timers)
    decreases Measure(s, limit)
  {
    if s == [] || limit <= s[0].due then Drained(s, [], [])
    else
      var d := Drain(Next(s, timers, limit), timers, limit);
      Drained(d.rest, [s[0]] + d.fired, Restart(s[0], timers, limit) + d.restarts)
  }

  lemma DrainNone(s: seq<Alarm>, timers: Timers, limit: int)
    requires Known(s, timers) && (s == [] || limit <= s[0].due)
    ensures Drain(s, timers, limit) == Drained(s, [], [])
  {
  }

  lemma DrainOne(s: seq<Alarm>, timers: Timers, limit: int)
    requires HasDue(s, timers, limit)
    ensures var d, e := Drain(s, timers, limit), Drain(Next(s, timers, limit), timers, limit);
            && d.rest == e.rest && d.fired == [s[0]] + e.fired
            && d.restarts == Restart(s[0], timers, limit) + e.restarts
  {
  }

  lemma NextKeeps(s: seq<Alarm>, timers: Timers, limit: int)
    requires HasDue(s, timers, limit) && Ordered(s)
    ensures var r := Next(s, timers, limit); Ordered(r) && (r == [] || s[0].due <= r[0].due)
  {
    hide Place;
    PutKeepsOrder(s[1..], Reloaded(s[0], timers));
  }

  /** Alarms go off in order, all before the limit, and everything that is left is due later. */
  lemma {:induction false} DrainInOrder(s: seq<Alarm>, timers: Timers, limit: int)
    requires Known(s, timers) && Ordered(s)
    ensures var d := Drain(s, timers, limit);
            && Ordered(d.fired) && Ordered(d.rest) && Known(d.rest, timers) && Known(d.restarts, timers)
            && (forall i | 0 <= i < |d.fired| :: s != [] && s[0].due <= d.fired[i].due < limit)
            && (forall i | 0 <= i < |d.rest| :: limit <= d.rest[i].due)
    decreases Measure(s, limit)
  {
    hide Next, Drain, Restart, Measure;
    if s == [] || limit <= s[0].due {
      DrainNone(s, timers, limit);
    } else {
      DrainOne(s, timers, limit);
      NextKeeps(s, timers, limit);
      DrainInOrder(Next(s, timers, limit), timers, limit);
    }
  }

  // ----- which alarms go off -----

  /** The expiries of one alarm before the limit: once for a one-shot timer, else every period. */
  function Expiries(a: Alarm, timers: Timers, limit: int): seq<Alarm>
    requires KnownTimer(a.id, timers)
    decreases Weight(a, limit)
  {
    if limit <= a.due then []
    else if Repeats(a, timers, limit) then [a] + Expiries(Reloaded(a, timers), timers, limit)
    else [a]
  }

  /** That is, exactly one for each due + k * period below the limit, in this order. */
  lemma {:induction false} ExpiriesAre(a: Alarm, timers: Timers, limit: int)
    requires KnownTimer(a.id, timers) && a.due < limit
    ensures var es, p := Expiries(a, timers, limit), timers[a.id].period;
            && |es| >= 1 && (forall k | 0 <= k < |es| :: es[k] == Alarm(a.due + k * p, a.id))
            && if timers[a.id].autoReload then a.due + (|es| - 1) * p < limit <= a.due + |es| * p else |es| == 1
    decreases Weight(a, limit)
  {
    if Repeats(a, timers, limit) {
      ExpiriesAre(Reloaded(a, timers), timers, limit);
      var es, fs, p := Expiries(a, timers, limit), Expiries(Reloaded(a, timers), timers, limit), timers[a.id].period;
      assert (|es| - 1) * p == p + (|fs| - 1) * p && |es| * p == p + |fs| * p;
      forall k | 0 <= k < |es|
        ensures es[k] == Alarm(a.due + k * p, a.id)
      {
        if k > 0 {
          assert es[k] == fs[k - 1];
          assert k * p == p + (k - 1) * p;
        }
      }
    }
  }

  /** All expiries that the alarms of s have before the limit, and their last ones for reloading timers. */
  function Due(s: seq<Alarm>, timers: Timers, limit: int): multiset<Alarm>
    requires Known(s, timers)
  {
    if s == [] then multiset{} else multiset(Expiries(s[0], timers, limit)) + Due(s[1..], timers, limit)
  }

  function Last(a: Alarm, timers: Timers, limit: int): multiset<Alarm>
    requires KnownTimer(a.id, timers)
  {
    var es := Expiries(a, timers, limit);
    if timers[a.id].autoReload && es != [] then multiset{es[|es| - 1]} else multiset{}
  }

  function Lasts(s: seq<Alarm>, timers: Timers, limit: int): multiset<Alarm>
    requires Known(s, timers)
  {
    if s == [] then multiset{} else Last(s[0], timers, limit) + Lasts(s[1..], timers, limit)
  }

  lemma {:induction false} DueConcat(a: seq<Alarm>, b: seq<Alarm>, timers: Timers, limit: int)
    requires Known(a, timers) && Known(b, timers)
    ensures Known(a + b, timers) && Due(a + b, timers, limit) == Due(a, timers, limit) + Due(b, timers, limit)
    ensures Lasts(a + b, timers, limit) == Lasts(a, timers, limit) + Lasts(b, timers, limit)
  {
    hide Due, Lasts, Expiries, Last;
    if a == [] {
      assert a + b == b;
      DueNone(timers, limit);
    } else {
      assert (a + b)[1..] == a[1..] + b;
      DueConcat(a[1..], b, timers, limit);
      DueOne(a, timers, limit);
      DueOne(a + b, timers, limit);
    }
  }

  lemma DueNone(timers: Timers, limit: int)
    ensures Due([], timers, limit) == Lasts([], timers, limit) == multiset{}
  {
  }

  lemma DuePut(s: seq<Alarm>, a: Alarm, timers: Timers, limit: int)
    requires Known(s, timers) && KnownTimer(a.id, timers)
    ensures Known(Put(s, a), timers)
    ensures Due(Put(s, a), timers, limit) == Due(s, timers, limit) + multiset(Expiries(a, timers, limit))
    ensures Lasts(Put(s, a), timers, limit) == Lasts(s, timers, limit) + Last(a, timers, limit)
  {
    hide Place, Expiries, Last;
    var k := Place(s, a.due);
    assert s == s[..k] + s[k..];
    DueConcat(s[..k], s[k..], timers, limit);
    DueConcat(s[..k] + [a], s[k..], timers, limit);
    DueConcat(s[..k], [a], timers, limit);
  }

  lemma ExpiriesOne(a: Alarm, timers: Timers, limit: int)
    requires KnownTimer(a.id, timers) && a.due < limit
    ensures var r := Reloaded(a, timers);
            if Repeats(a, timers, limit)
            then multiset(Expiries(a, timers, limit)) == multiset{a} + multiset(Expiries(r, timers, limit))
                 && Last(a, timers, limit) == Last(r, timers, limit) && Restart(a, timers, limit) == []
            else Expiries(a, timers, limit) == [a] && multiset(Restart(a, timers, limit)) == Last(a, timers, limit)
  {
    if Repeats(a, timers, limit) {
      var es, fs := Expiries(a, timers, limit), Expiries(Reloaded(a, timers), timers, limit);
      assert es == [a] + fs && fs != [] && es[|es| - 1] == fs[|fs| - 1];
    }
  }

  lemma DueOne(s: seq<Alarm>, timers: Timers, limit: int)
    requires Known(s, timers) && s != []
    ensures Due(s, timers, limit) == multiset(Expiries(s[0], timers, limit)) + Due(s[1..], timers, limit)
    ensures Lasts(s, timers, limit) == Last(s[0], timers, limit) + Lasts(s[1..], timers, limit)
  {
  }

  lemma NextDue(s: seq<Alarm>, timers: Timers, limit: int)
    requires HasDue(s, timers, limit)
    ensures Due(s, timers, limit) == multiset{s[0]} + Due(Next(s, timers, limit), timers, limit)
    ensures Lasts(s, timers, limit)
         == multiset(Restart(s[0], timers, limit)) + Lasts(Next(s, timers, limit), timers, limit)
  {
    hide Place, Expiries, Last, Due, Lasts, Restart, Measure, Put;
    DueOne(s, timers, limit);
    ExpiriesOne(s[0], timers, limit);
    DuePut(s[1..], Reloaded(s[0], timers), timers, limit);
  }

  lemma {:induction false} NothingDue(s: seq<Alarm>, timers: Timers, limit: int)
    requires Known(s, timers) && forall i | 0 <= i < |s| :: limit <= s[i].due
    ensures Due(s, timers, limit) == Lasts(s, timers, limit) == multiset{}
  {
    if s != [] {
      NothingDue(s[1..], timers, limit);
    }
  }

  /** The alarms that go off are exactly the expiries before the limit, each as often as it is
      due, and one restart is sent for each reloading timer, with its last expiry. */
  lemma {:induction false} DrainConserves(s: seq<Alarm>, timers: Timers, limit: int)
    requires Known(s, timers) && Ordered(s)
    ensures multiset(Drain(s, timers, limit).fired) == Due(s, timers, limit)
    ensures multiset(Drain(s, timers, limit).restarts) == Lasts(s, timers, limit)
    decreases Measure(s, limit)
  {
    hide Next, Drain, Restart, Measure, Due, Lasts, Expiries, Last;
    if s == [] || limit <= s[0].due {
      DrainNone(s, timers, limit);
      NothingDue(s, timers, limit);
    } else {
      DrainOne(s, timers, limit);
      NextKeeps(s, timers, limit);
      NextDue(s, timers, limit);
      DrainConserves(Next(s, timers, limit), timers, limit);
    }
  }

  /** How many reloading timers have an alarm before the limit. */
  function Reloading(s: seq<Alarm>, timers: Timers, limit: int): nat
    requires Known(s, timers)
  {
    if s == [] then 0
    else (if s[0].due < limit && timers[s[0].id].autoReload then 1 else 0) + Reloading(s[1..], timers, limit)
  }

  lemma {:induction false} RestartsCounted(s: seq<Alarm>, timers: Timers, limit: int)
    requires Known(s, timers) && Ordered(s)
    ensures |Drain(s, timers, limit).restarts| == Reloading(s, timers, limit)
  {
    hide Drain;
    DrainConserves(s, timers, limit);
    assert |multiset(Drain(s, timers, limit).restarts)| == |Drain(s, timers, limit).restarts|;
    LastsCounted(s, timers, limit);
  }

  lemma {:induction false} LastsCounted(s: seq<Alarm>, timers: Timers, limit: int)
    requires Known(s, timers)
    ensures |Lasts(s, timers, limit)| == Reloading(s, timers, limit)
  {
    if s != [] {
      LastsCounted(s[1..], timers, limit);
    }
  }

  /** Alarms at or after the limit stay as they are. */
  lemma {:induction false} DrainLeavesLater(s: seq<Alarm>, late: seq<Alarm>, timers: Timers, limit: int)
    requires Known(s, timers) && Known(late, timers)
    requires forall i | 0 <= i < |late| :: limit <= late[i].due
    requires Ordered(s) && (s == [] || s[|s| - 1].due < limit)
    ensures Known(s + late, timers)
    ensures Drain(s + late, timers, limit) == Drain(s, timers, limit).(rest := late)
            && Drain(s, timers, limit).rest == []
    decreases Measure(s, limit)
  {
    hide Drain, Measure, Due, Lasts, Expiries, Restart;
    if s == [] {
      assert s + late == late;
      DrainNone(s, timers, limit);
      DrainNone(late, timers, limit);
    } else {
      var n := Next(s, timers, limit);
      assert s[0].due < limit by {
        assert |s| > 1 ==> s[0].due <= s[|s| - 1].due;
      }
      assert Known(s + late, timers);
      NextLeavesLater(s, late, timers, limit);
      NextKeeps(s, timers, limit);
      DrainOne(s, timers, limit);
      DrainOne(s + late, timers, limit);
      DrainLeavesLater(n, late, timers, limit);
    }
  }

  lemma NextLeavesLater(s: seq<Alarm>, late: seq<Alarm>, timers: Timers, limit: int)
    requires HasDue(s, timers, limit) && HasDue(s + late, timers, limit)
    requires forall i | 0 <= i < |late| :: limit <= late[i].due
    requires s[|s| - 1].due < limit
    ensures Next(s + late, timers, limit) == Next(s, timers, limit) + late
    ensures var n := Next(s, timers, limit); n == [] || n[|n| - 1].due < limit
  {
    hide Put, Measure;
    var t, b := s[1..], Reloaded(s[0], timers);
    assert (s + late)[0] == s[0] && (s + late)[1..] == t + late;
    if Repeats(s[0], timers, limit) {
      PutBeforeLater(t, late, b, limit);
    }
  }

  lemma PutBeforeLater(t: seq<Alarm>, late: seq<Alarm>, b: Alarm, limit: int)
    requires b.due < limit && (t == [] || t[|t| - 1].due < limit)
    requires forall i | 0 <= i < |late| :: limit <= late[i].due
    ensures Put(t + late, b) == Put(t, b) + late
    ensures var n := Put(t, b); n != [] && n[|n| - 1].due < limit
  {
    hide Place, InsertAt;
    var k := Place(t, b.due);
    PlaceIs(t + late, b.due, k);
    InsertBefore(t, late, k, b);
  }

  lemma InsertBefore<T>(t: seq<T>, late: seq<T>, k: nat, x: T)
    requires k <= |t|
    ensures InsertAt(t + late, k, x) == InsertAt(t, k, x) + late
    ensures var n := InsertAt(t, k, x); |n| == |t| + 1 && n[|t|] == if k == |t| then x else t[|t| - 1]
  {
    assert (t + late)[..k] == t[..k] && (t + late)[k..] == t[k..] + late;
  }
}
