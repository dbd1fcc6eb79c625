/** The timer service task of tests/FreeRTOS/timers.c as it runs: two lists of 32-bit expiry
 *  times that are swapped when the tick count wraps, proved to be one timeline in unbounded time.
 *  The timing the service relies on is that it samples the time, and processes each start
 *  command, less than 2^32 ticks after the sample before, respectively after the command was sent. */
module Timers {
  import opened ListModel
  import opened TimerModel
  import opened TimerDaemon
  import opened Wrappers

  // ----- two lists as one timeline -----

  /** The alarms of a list whose expiry times belong to the given wrap epoch. */
  function Real(s: seq<Entry>, epoch: int): (r: seq<Alarm>)
    ensures |r| == |s| && forall i | 0 <= i < |s| :: r[i] == Alarm(epoch * WRAP + s[i].value, s[i].id)
  {
    seq(|s|, i requires 0 <= i < |s| => Alarm(epoch * WRAP + s[i].value, s[i].id))
  }

  function Timeline(current: seq<Entry>, overflow: seq<Entry>, epoch: int): seq<Alarm> {
    Real(current, epoch) + Real(overflow, epoch + 1)
  }

  lemma InsertCurrent(current: seq<Entry>, overflow: seq<Entry>, epoch: int, e: Entry)
    ensures Timeline(Insert(current, e), overflow, epoch)
         == Put(Timeline(current, overflow, epoch), Alarm(epoch * WRAP + e.value, e.id))
  {
    hide InsertPosition, Values, TimerModel.Place;
    var k, a := InsertPosition(Values(current), e.value), Alarm(epoch * WRAP + e.value, e.id);
    ListPosition(current, e.value);
    PlaceIs(Timeline(current, overflow, epoch), a.due, k);
    assert Real(Insert(current, e), epoch) == InsertAt(Real(current, epoch), k, a);
  }

  lemma InsertOverflow(current: seq<Entry>, overflow: seq<Entry>, epoch: int, e: Entry)
    ensures Timeline(current, Insert(overflow, e), epoch)
         == Put(Timeline(current, overflow, epoch), Alarm((epoch + 1) * WRAP + e.value, e.id))
  {
    hide InsertPosition, Values, TimerModel.Place;
    var k, a := InsertPosition(Values(overflow), e.value), Alarm((epoch + 1) * WRAP + e.value, e.id);
    ListPosition(overflow, e.value);
    PlaceIs(Timeline(current, overflow, epoch), a.due, |current| + k);
    assert Real(Insert(overflow, e), epoch + 1) == InsertAt(Real(overflow, epoch + 1), k, a);
  }

  lemma ListPosition(s: seq<Entry>, v: word)
    ensures var k := InsertPosition(Values(s), v);
            k <= |s| && (forall j | 0 <= j < k :: s[j].value <= v) && (k < |s| ==> v < s[k].value)
  {
    var k := InsertPosition(Values(s), v);
    forall j | 0 <= j < k
      ensures s[j].value <= v
    {
      assert Values(s)[j] <= v;
    }
  }

  /** uxListRemove of the list item of a timer. */
  function Unlisted(s: seq<Entry>, id: int): seq<Entry> {
    if s == [] then [] else if s[0].id == id then Unlisted(s[1..], id) else [s[0]] + Unlisted(s[1..], id)
  }

  lemma {:induction false} RealWithout(s: seq<Entry>, epoch: int, id: int)
    ensures Real(Unlisted(s, id), epoch) == Without(Real(s, epoch), id)
  {
    if s != [] {
      assert Real(s, epoch)[1..] == Real(s[1..], epoch);
      RealWithout(s[1..], epoch, id);
    }
  }

  lemma TimelineWithout(current: seq<Entry>, overflow: seq<Entry>, epoch: int, id: int)
    ensures Timeline(Unlisted(current, id), Unlisted(overflow, id), epoch)
            == Without(Timeline(current, overflow, epoch), id)
  {
    RealWithout(current, epoch, id);
    RealWithout(overflow, epoch + 1, id);
    WithoutConcat(Real(current, epoch), Real(overflow, epoch + 1), id);
  }

  lemma TimelineTail(current: seq<Entry>, overflow: seq<Entry>, epoch: int)
    requires current != []
    ensures var t := Timeline(current, overflow, epoch);
            && t != [] && t[0] == Alarm(epoch * WRAP + current[0].value, current[0].id)
            && Timeline(current[1..], overflow, epoch) == t[1..]
  {
    assert Real(current, epoch)[1..] == Real(current[1..], epoch);
  }

  // ----- one round of switching lists -----

  /** The word arithmetic of a reload: it wraps exactly if the next expiry is in the next epoch. */
  lemma ReloadWraps(v: word, p: word)
    requires p > 0
    ensures (v + p) % WRAP > v <==> v + p < WRAP
    ensures (v + p) % WRAP == if v + p < WRAP then v + p else v + p - WRAP
  {
  }

  lemma SwitchRound(current: seq<Entry>, overflow: seq<Entry>, epoch: int, timers: TimerModel.Timers)
    requires Known(Timeline(current, overflow, epoch), timers) && current != []
    ensures HasDue(Timeline(current, overflow, epoch), timers, (epoch + 1) * WRAP)
    ensures var e, t, limit := current[0], Timeline(current, overflow, epoch), (epoch + 1) * WRAP;
            && KnownTimer(e.id, timers)
            && var p := timers[e.id].period;
               var again := timers[e.id].autoReload && (e.value + p) % WRAP > e.value;
               && Restart(t[0], timers, limit) == (if timers[e.id].autoReload && !again then [t[0]] else [])
               && Next(t, timers, limit)
                  == Timeline(if again then Insert(current[1..], Entry((e.value + p) % WRAP, e.id)) else current[1..],
                              overflow, epoch)
  {
    hide Measure, Put, Insert;
    var e, t := current[0], Timeline(current, overflow, epoch);
    TimelineTail(current, overflow, epoch);
    assert KnownTimer(t[0].id, timers);
    var p := timers[e.id].period;
    ReloadWraps(e.value, p);
    if e.value + p < WRAP {
      InsertCurrent(current[1..], overflow, epoch, Entry(e.value + p, e.id));
    }
  }

  // ----- the service -----

  datatype CommandId = StartCommand | StopCommand | ChangePeriodCommand | DeleteCommand

  /** DaemonTaskMessage_t: start commands carry the time they were sent, as a tick count. */
  datatype Message = Message(xMessageID: CommandId, pxTimer: int, xMessageValue: word)

  /** The message for a command that is sent in unbounded time. */
  function Encoded(c: Command): Message {
    match c
    case Start(id, time) => Message(StartCommand, id, time % WRAP)
    case Stop(id) => Message(StopCommand, id, 0)
    case ChangePeriod(id, period) => Message(ChangePeriodCommand, id, period)
    case Delete(id) => Message(DeleteCommand, id, 0)
  }

  /** What is understood at time n from the message for a command: its time modulo 2^32. */
  function Heard(c: Command, n: int): (h: Command)
    ensures h.id == c.id && Encoded(h) == Encoded(c)
  {
    if c.Start? then Start(c.id, Seen(c.time, n)) else c
  }

  /** The daemon as it hears the first command in its queue at time n. */
  function Hearing(d: Daemon, n: int): (h: Daemon) {
    if d.commands == [] then d else d.(commands := [Heard(d.commands[0], n)] + d.commands[1..])
  }

  /** A start command less than a wrap old, like every other command, is heard as it was meant. */
  lemma HeardExactly(c: Command, n: int)
    ensures Heard(c, n) == c <==> !(c.Start? && !(0 <= n - c.time < WRAP))
  {
    if c.Start? {
      SeenExactly(c.time, n);
    }
  }

  lemma HearingKeeps(d: Daemon, n: int)
    requires Fine(d)
    ensures Fine(Hearing(d, n))
  {
    hide Ordered, Single, Known;
    var h := Hearing(d, n);
    forall i | 0 <= i < |h.commands|
      ensures KnownCommand(h.commands[i], h.timers)
    {
      assert KnownCommand(d.commands[i], d.timers);
    }
  }

  function Encodings(s: seq<Command>): (r: seq<Message>)
    ensures |r| == |s| && forall i | 0 <= i < |s| :: r[i] == Encoded(s[i])
  {
    seq(|s|, i requires 0 <= i < |s| => Encoded(s[i]))
  }

  class TimerService {
    var pxCurrentTimerList: seq<Entry>
    var pxOverflowTimerList: seq<Entry>
    var timers: map<int, Timer>
    var xTimerQueue: seq<Message>
    var xLastTime: word
    ghost var epoch: int              // how often the tick count had wrapped at the last sample
    ghost var sent: seq<Command>      // the commands in the queue, in unbounded time
    ghost var fired: seq<Fire>        // the callbacks made so far

    ghost function Pending(): seq<Alarm>
      reads this`pxCurrentTimerList, this`pxOverflowTimerList, this`epoch
    {
      Timeline(pxCurrentTimerList, pxOverflowTimerList, epoch)
    }

    ghost function Value(): Daemon
      reads this
    {
      Daemon(Pending(), timers, sent, fired, epoch * WRAP + xLastTime)
    }

    /** The time that a tick count is taken for: the first one since the last sample. */
    ghost function Now(xTickCount: word): (n: int)
      reads this`epoch, this`xLastTime
      ensures n % WRAP == xTickCount && 0 <= n - (epoch * WRAP + xLastTime) < WRAP
    {
      epoch * WRAP + xLastTime + (xTickCount - xLastTime) % WRAP
    }

    /** It is the time if less than a wrap has passed since then. */
    lemma NowExactly(n: int)
      ensures Now(n % WRAP) == n <==> 0 <= n - Value().last < WRAP
    {
    }

    ghost predicate Queued()
      reads this`xTimerQueue, this`sent
    {
      |sent| <= QUEUE_LENGTH && xTimerQueue == Encodings(sent)
    }

    ghost predicate Valid()
      reads this
    {
      Queued() && Fine(Value())
    }

    /** The statics before the first timer is created. */
    constructor ()
      ensures Valid() && Value() == Daemon([], map[], [], [], 0)
    {
      pxCurrentTimerList, pxOverflowTimerList, xTimerQueue, timers, xLastTime := [], [], [], map[], 0;
      epoch, sent, fired := 0, [], [];
    }

    /** xTimerCreate. */
    method Create(pxTimer: int, period: word, autoReload: bool)
      requires Valid() && pxTimer !in timers && period > 0
      modifies this`timers
      ensures Valid() && Value() == old(Value()).(timers := old(timers)[pxTimer := Timer(period, autoReload, false)])
    {
      hide Fine, Timeline, Encodings;
      TimersUpdated(Value(), pxTimer, Timer(period, autoReload, false));
      timers := timers[pxTimer := Timer(period, autoReload, false)];
    }

    /** xTimerGenericCommand without waiting. */
    method GenericCommand(xMessage: Message, ghost c: Command) returns (pass: bool)
      requires Queued() && xMessage == Encoded(c)
      modifies this`xTimerQueue, this`sent
      ensures pass == (|old(sent)| < QUEUE_LENGTH)
      ensures Queued() && sent == if pass then old(sent) + [c] else old(sent)
    {
      pass := |xTimerQueue| < QUEUE_LENGTH;
      if pass {
        xTimerQueue := xTimerQueue + [xMessage];
        sent := sent + [c];
      }
    }

    /** pxCallbackFunction, which leaves the timers alone. */
    method Callback(pxTimer: int, ghost due: int, ghost n: int)
      modifies this`fired
      ensures fired == old(fired) + [Fire(due, pxTimer, n)]
    {
      fired := fired + [Fire(due, pxTimer, n)];
    }

    /** One round of the loop of prvSwitchTimerLists; false if its assertion fails. */
    method SwitchHead(ghost n: int) returns (pass: bool)
      requires Queued() && Known(Pending(), timers) && pxCurrentTimerList != []
      modifies this`pxCurrentTimerList, this`xTimerQueue, this`sent, this`fired
      ensures HasDue(old(Pending()), timers, (epoch + 1) * WRAP)
      ensures var t, limit := old(Pending()), (epoch + 1) * WRAP;
              var r := Restart(t[0], timers, limit);
              && pass == (|old(sent)| + |r| <= QUEUE_LENGTH)
              && (pass ==> Pending() == Next(t, timers, limit) && Queued() && sent == old(sent) + Starts(r)
                           && fired == old(fired) + [Fire(t[0].due, t[0].id, n)])
    {
      hide Known, Next, Restart, Timeline, Insert, HasDue;
      SwitchRound(pxCurrentTimerList, pxOverflowTimerList, epoch, timers);
      TimelineTail(pxCurrentTimerList, pxOverflowTimerList, epoch);
      ghost var a := Pending()[0];
      var xNextExpireTime, pxTimer := pxCurrentTimerList[0].value, pxCurrentTimerList[0].id;
      pxCurrentTimerList := pxCurrentTimerList[1..];
      Callback(pxTimer, a.due, n);
      pass := true;
      if timers[pxTimer].autoReload {
        var xReloadTime := (xNextExpireTime + timers[pxTimer].period) % WRAP;
        if xReloadTime > xNextExpireTime {
          pxCurrentTimerList := Insert(pxCurrentTimerList, Entry(xReloadTime, pxTimer));
        } else {
          pass := GenericCommand(Message(StartCommand, pxTimer, xNextExpireTime), Start(pxTimer, a.due));
        }
      }
    }

    /** prvSwitchTimerLists; false if its assertion fails. */
    method SwitchTimerLists(ghost n: int) returns (pass: bool)
      requires Valid()
      modifies this`pxCurrentTimerList, this`pxOverflowTimerList, this`xTimerQueue, this`sent, this`fired, this`epoch
      ensures var x := Drain(old(Pending()), timers, (old(epoch) + 1) * WRAP);
              && pass == (|old(sent)| + |x.restarts| <= QUEUE_LENGTH)
              && (pass ==> Queued() && epoch == old(epoch) + 1 && pxOverflowTimerList == [] && Pending() == x.rest
                           && sent == old(sent) + Starts(x.restarts) && fired == old(fired) + Fires(x.fired, n))
    {
      hide Known, Next, Restart, Timeline, Insert, Drain, Measure, HasDue, Encodings, Ahead, Starts, Fires;
      ghost var limit, x := (epoch + 1) * WRAP, Drain(Pending(), timers, (epoch + 1) * WRAP);
      ghost var f: seq<Alarm>, r: seq<Alarm> := [], [];
      AheadNone(x);
      pass := true;
      while pxCurrentTimerList != []
        invariant Queued() && Known(Pending(), timers) && epoch == old(epoch)
        invariant Ahead(x, Drain(Pending(), timers, limit), f, r)
        invariant sent == old(sent) + Starts(r) && fired == old(fired) + Fires(f, n)
        invariant pxOverflowTimerList == old(pxOverflowTimerList)
        decreases Measure(Pending(), limit)
      {
        ghost var t := Pending();
        SwitchRound(pxCurrentTimerList, pxOverflowTimerList, epoch, timers);
        TimelineTail(pxCurrentTimerList, pxOverflowTimerList, epoch);
        ghost var q := Restart(t[0], timers, limit);
        DrainOne(t, timers, limit);
        AheadOne(x, Drain(t, timers, limit), Drain(Next(t, timers, limit), timers, limit), f, r, t[0], q);
        LogsConcat(f, [t[0]], r, q, n);
        pass := SwitchHead(n);
        if !pass {
          AheadCounts(x, Drain(Next(t, timers, limit), timers, limit), f + [t[0]], r + q);
          return;
        }
        f, r := f + [t[0]], r + q;
      }
      SwitchDone(pxOverflowTimerList, epoch, timers);
      AheadDone(x, Drain(Pending(), timers, limit), f, r);
      pxCurrentTimerList, pxOverflowTimerList, epoch := pxOverflowTimerList, pxCurrentTimerList, epoch + 1;
    }

    /** prvInsertTimerInActiveList for a command of time c, of any age, at time n. */
    method InsertTimerInActiveList(pxTimer: int, xNextExpiryTime: word, xTimeNow: word, xCommandTime: word,
                                   ghost c: int, ghost n: int)
      returns (xProcessTimerNow: bool)
      requires KnownTimer(pxTimer, timers) && n / WRAP == epoch
      requires xNextExpiryTime == (c + timers[pxTimer].period) % WRAP && xTimeNow == n % WRAP
               && xCommandTime == c % WRAP
      modifies this`pxCurrentTimerList, this`pxOverflowTimerList
      ensures var due := Seen(c, n) + timers[pxTimer].period;
              && xProcessTimerNow == (due <= n)
              && Pending() == if due <= n then old(Pending()) else Put(old(Pending()), Alarm(due, pxTimer))
    {
      hide Timeline, Insert, Put;
      ghost var seen := Seen(c, n);
      ghost var due := seen + timers[pxTimer].period;
      SameResidue(c, seen, timers[pxTimer].period);
      RouteExactly(seen, timers[pxTimer].period, n);
      assert due == due / WRAP * WRAP + xNextExpiryTime;
      InsertCurrent(pxCurrentTimerList, pxOverflowTimerList, epoch, Entry(xNextExpiryTime, pxTimer));
      InsertOverflow(pxCurrentTimerList, pxOverflowTimerList, epoch, Entry(xNextExpiryTime, pxTimer));
      xProcessTimerNow := false;
      if xNextExpiryTime <= xTimeNow {
        if (xTimeNow - xCommandTime) % WRAP >= timers[pxTimer].period {
          xProcessTimerNow := true;
        } else {
          pxOverflowTimerList := Insert(pxOverflowTimerList, Entry(xNextExpiryTime, pxTimer));
        }
      } else {
        if xTimeNow < xCommandTime && xNextExpiryTime >= xCommandTime {
          xProcessTimerNow := true;
        } else {
          pxCurrentTimerList := Insert(pxCurrentTimerList, Entry(xNextExpiryTime, pxTimer));
        }
      }
    }

    /** prvSampleTimeNow. */
    method SampleTimeNow(xTickCount: word) returns (xTimeNow: word, xTimerListsWereSwitched: bool, pass: bool)
      requires Valid()
      modifies this
      ensures var n := old(Now(xTickCount));
              && xTimeNow == xTickCount && xTimerListsWereSwitched == (n / WRAP != old(Value().last) / WRAP)
              && (!xTimerListsWereSwitched ==> pxCurrentTimerList == old(pxCurrentTimerList))
              && pass == Sample(old(Value()), n).Some?
              && (pass ==> Queued() && Value() == Sample(old(Value()), n).value && epoch == n / WRAP)
    {
      hide Timeline, Drain, Encodings, Single, Ordered, Starts, Fires, Now;
      ghost var n := Now(xTickCount);
      EpochArithmetic(epoch, xLastTime, n);
      ghost var x := Drain(Pending(), timers, n / WRAP * WRAP);
      LogsConcat([], [], [], x.restarts, n);
      assert [] + x.restarts == x.restarts;
      xTimeNow, xTimerListsWereSwitched, pass := xTickCount, false, true;
      if xTimeNow < xLastTime {
        pass := SwitchTimerLists(n);
        if !pass {
          return xTimeNow, true, false;
        }
        xTimerListsWereSwitched := true;
      }
      xLastTime := xTimeNow;
    }

    /** prvProcessExpiredTimer at time n; false if its assertion fails. */
    method ProcessExpiredTimer(xNextExpireTime: word, xTimeNow: word, ghost n: int) returns (pass: bool)
      requires Valid() && n / WRAP == epoch && xTimeNow == n % WRAP
      requires pxCurrentTimerList != [] && pxCurrentTimerList[0].value == xNextExpireTime <= xTimeNow
      modifies this
      ensures old(Pending()) != [] && pass == Expire(old(Value()), n).Some?
      ensures pass ==> Queued() && Value() == Expire(old(Value()), n).value
    {
      hide Timeline, Put, Insert, Encodings, Single, Ordered;
      TimelineTail(pxCurrentTimerList, pxOverflowTimerList, epoch);
      ghost var a := Pending()[0];
      assert KnownTimer(a.id, timers);
      var pxTimer := pxCurrentTimerList[0].id;
      pxCurrentTimerList := pxCurrentTimerList[1..];
      pass := true;
      if timers[pxTimer].autoReload {
        ReloadedWord(a.due, epoch, xNextExpireTime, timers[pxTimer].period, n);
        SeenExactly(a.due, n);
        var now := InsertTimerInActiveList(pxTimer, (xNextExpireTime + timers[pxTimer].period) % WRAP, xTimeNow,
                                           xNextExpireTime, a.due, n);
        if now {
          pass := GenericCommand(Message(StartCommand, pxTimer, xNextExpireTime), Start(pxTimer, a.due));
          if !pass {
            return;
          }
        }
      } else {
        timers := timers[pxTimer := timers[pxTimer].(active := false)];
      }
      Callback(pxTimer, a.due, n);
    }

    /** prvGetNextExpireTime and prvProcessTimerOrBlockTask, without the blocking. */
    method ProcessTimer(xTickCount: word) returns (pass: bool)
      requires Valid()
      modifies this
      ensures var n := old(Now(xTickCount));
              && pass == Process(old(Value()), n).Some?
              && (pass ==> Valid() && Value() == Process(old(Value()), n).value)
    {
      hide Timeline, Expire, Drain, Encodings, Single, Ordered, Starts, Fires, Now;
      ghost var n := Now(xTickCount);
      StepKeepsIf(Value(), Processing(n));
      EpochArithmetic(epoch, xLastTime, n);
      if n / WRAP == epoch {
        HeadIsDue(pxCurrentTimerList, pxOverflowTimerList, epoch, n);
      }
      var xListWasEmpty := pxCurrentTimerList == [];
      var xNextExpireTime := if xListWasEmpty then 0 else pxCurrentTimerList[0].value;
      var xTimeNow, xTimerListsWereSwitched;
      xTimeNow, xTimerListsWereSwitched, pass := SampleTimeNow(xTickCount);
      if pass && !xTimerListsWereSwitched && !xListWasEmpty && xNextExpireTime <= xTimeNow {
        pass := ProcessExpiredTimer(xNextExpireTime, xTimeNow, n);
      }
    }

    /** xTimerStart, xTimerStop, xTimerChangePeriod, xTimerDelete, from a task that does not wait. */
    method PostCommand(xMessage: Message, ghost c: Command) returns (pass: bool)
      requires Valid() && KnownCommand(c, timers) && xMessage == Encoded(c)
      modifies this`xTimerQueue, this`sent
      ensures Valid() && Some(Value()) == TimerDaemon.Step(old(Value()), Post(c))
      ensures pass == (|old(sent)| < QUEUE_LENGTH)
    {
      hide Timeline, Encodings, Single, Ordered, Known;
      StepKeepsIf(Value(), Post(c));
      pass := GenericCommand(xMessage, c);
    }

    /** The switch statement of prvProcessReceivedCommands for a command received at time n. */
    method ActOn(xMessage: Message, xTimeNow: word, ghost c: Command, ghost n: int) returns (pass: bool)
      requires Queued() && Fine(Value()) && Value().last == n && xMessage == Encoded(c) && xTimeNow == n % WRAP
               && epoch == n / WRAP
      requires KnownTimer(c.id, timers)
      modifies this
      ensures pass == Act(old(Value()), Heard(c, n), n).Some?
      ensures pass ==> Queued() && Value() == Act(old(Value()), Heard(c, n), n).value
    {
      hide Timeline, Put, Encodings, Fine;
      var pxTimer, t := xMessage.pxTimer, timers[xMessage.pxTimer];
      pass := true;
      match xMessage.xMessageID {
        case StartCommand =>
          timers := timers[pxTimer := t.(active := true)];
          var xNextExpiryTime := (xMessage.xMessageValue + t.period) % WRAP;
          ghost var due := Seen(c.time, n) + t.period;
          StartedWord(c.time, t.period);
          SameResidue(c.time, Seen(c.time, n), t.period);
          var now := InsertTimerInActiveList(pxTimer, xNextExpiryTime, xTimeNow, xMessage.xMessageValue, c.time, n);
          if now {
            Callback(pxTimer, due, n);
            if t.autoReload {
              pass := GenericCommand(Message(StartCommand, pxTimer, xNextExpiryTime), Start(pxTimer, due));
            }
          }
        case StopCommand =>
          timers := timers[pxTimer := t.(active := false)];
        case ChangePeriodCommand =>
          pass := xMessage.xMessageValue > 0;
          if pass {
            timers := timers[pxTimer := t.(active := true, period := xMessage.xMessageValue)];
            StartedWord(n, xMessage.xMessageValue);
            SeenExactly(n, n);
            var now := InsertTimerInActiveList(pxTimer, (xTimeNow + xMessage.xMessageValue) % WRAP, xTimeNow,
                                               xTimeNow, n, n);
          }
        case DeleteCommand =>
          timers := timers[pxTimer := t.(active := false)];
      }
    }

    /** One round of prvProcessReceivedCommands; false if an assertion fails. */
    method ReceiveCommand(xTickCount: word) returns (received: bool, pass: bool)
      requires Valid()
      modifies this
      ensures var n := old(Now(xTickCount));
              var d := Hearing(old(Value()), n);
              && Fine(d) && received == (old(sent) != []) && pass == Receive(d, n).Some?
              && (pass ==> Valid() && Value() == Receive(d, n).value)
    {
      hide Timeline, Sample, Act, Single, Ordered, Without, Now;
      ghost var n := Now(xTickCount);
      ghost var d := Hearing(Value(), n);
      HearingKeeps(Value(), n);
      StepKeepsIf(d, Receiving(n));
      received, pass := xTimerQueue != [], true;
      if received {
        RemovedFine(d);
        ghost var c := sent[0];
        var xMessage := xTimerQueue[0];
        xTimerQueue, sent := xTimerQueue[1..], sent[1..];
        TimelineWithout(pxCurrentTimerList, pxOverflowTimerList, epoch, c.id);
        pxCurrentTimerList := Unlisted(pxCurrentTimerList, xMessage.pxTimer);
        pxOverflowTimerList := Unlisted(pxOverflowTimerList, xMessage.pxTimer);
        StepKeepsSample(Value(), n);
        var xTimeNow, xTimerListsWereSwitched;
        xTimeNow, xTimerListsWereSwitched, pass := SampleTimeNow(xTickCount);
        if pass {
          pass := ActOn(xMessage, xTimeNow, c, n);
        }
      }
    }
  }

  lemma StepKeepsSample(d: Daemon, n: int)
    requires Fine(d)
    ensures Sample(d, n).Some? ==> var e := Sample(d, n).value; Fine(e) && e.timers == d.timers && e.last == n
  {
    hide Drain, Single, Ordered, Known;
    if Sample(d, n).Some? {
      SampleKeeps(d, n);
    }
  }

  lemma SameResidue(c: int, d: int, p: word)
    requires c % WRAP == d % WRAP
    ensures (c + p) % WRAP == (d + p) % WRAP
  {
  }

  lemma StartedWord(c: int, p: word)
    ensures (c % WRAP + p) % WRAP == (c + p) % WRAP
  {
  }

  lemma StepKeepsIf(d: Daemon, e: Event)
    requires Fine(d)
    ensures TimerDaemon.Step(d, e).Some? ==> Fine(TimerDaemon.Step(d, e).value)
  {
    hide TimerDaemon.Step, Fine;
    if TimerDaemon.Step(d, e).Some? {
      StepKeeps(d, e);
    }
  }

  /** The tick counts of an expiry time of this epoch and of its reload. */
  lemma ReloadedWord(due: int, epoch: int, v: word, p: word, n: int)
    requires due == epoch * WRAP + v && n / WRAP == epoch && v <= n % WRAP
    ensures due % WRAP == v && (v + p) % WRAP == (due + p) % WRAP && 0 <= n - due < WRAP
  {
  }

  lemma EpochArithmetic(epoch: int, last: word, n: int)
    requires 0 <= n - (epoch * WRAP + last) < WRAP
    ensures (epoch * WRAP + last) / WRAP == epoch
    ensures n % WRAP < last <==> n / WRAP != epoch
    ensures n / WRAP == if n % WRAP < last then epoch + 1 else epoch
    ensures n == n / WRAP * WRAP + n % WRAP
  {
  }

  /** The first alarm of the timeline is due at time n exactly if the current list has a head and it is. */
  lemma HeadIsDue(current: seq<Entry>, overflow: seq<Entry>, epoch: int, n: int)
    requires n / WRAP == epoch
    ensures var t := Timeline(current, overflow, epoch);
            t != [] && t[0].due <= n <==> current != [] && current[0].value <= n % WRAP
  {
    if current == [] {
      assert Timeline(current, overflow, epoch) == Real(overflow, epoch + 1);
    } else {
      TimelineTail(current, overflow, epoch);
    }
  }

  /** Draining to x comes, after the alarms f and restarts r, to draining to y. */
  ghost predicate Ahead(x: Drained, y: Drained, f: seq<Alarm>, r: seq<Alarm>) {
    x.rest == y.rest && x.fired == f + y.fired && x.restarts == r + y.restarts
  }

  lemma AheadNone(x: Drained)
    ensures Ahead(x, x, [], []) && Starts([]) == [] && forall n :: Fires([], n) == []
  {
  }

  lemma AheadOne(x: Drained, y: Drained, z: Drained, f: seq<Alarm>, r: seq<Alarm>, a: Alarm, q: seq<Alarm>)
    requires Ahead(x, y, f, r) && y.rest == z.rest && y.fired == [a] + z.fired && y.restarts == q + z.restarts
    ensures Ahead(x, z, f + [a], r + q)
  {
  }

  lemma AheadCounts(x: Drained, y: Drained, f: seq<Alarm>, r: seq<Alarm>)
    requires Ahead(x, y, f, r)
    ensures |x.restarts| >= |r|
  {
  }

  lemma AheadDone(x: Drained, y: Drained, f: seq<Alarm>, r: seq<Alarm>)
    requires Ahead(x, y, f, r) && y.fired == [] && y.restarts == []
    ensures x == Drained(y.rest, f, r)
  {
  }

  lemma LogsConcat(f: seq<Alarm>, g: seq<Alarm>, r: seq<Alarm>, q: seq<Alarm>, n: int)
    ensures Fires(f + g, n) == Fires(f, n) + Fires(g, n) && Starts(r + q) == Starts(r) + Starts(q)
    ensures |g| == 1 ==> Fires(g, n) == [Fire(g[0].due, g[0].id, n)]
    ensures |Starts(r + q)| == |r| + |q|
  {
  }

  /** With the current list empty nothing is due, and swapping the lists changes no expiry time. */
  lemma SwitchDone(overflow: seq<Entry>, epoch: int, timers: TimerModel.Timers)
    requires Known(Timeline([], overflow, epoch), timers)
    ensures Drain(Timeline([], overflow, epoch), timers, (epoch + 1) * WRAP)
            == Drained(Timeline([], overflow, epoch), [], [])
    ensures Timeline(overflow, [], epoch + 1) == Timeline([], overflow, epoch)
  {
    DrainNone(Timeline([], overflow, epoch), timers, (epoch + 1) * WRAP);
  }
}
