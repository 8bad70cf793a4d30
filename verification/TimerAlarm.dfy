/** The alarm of the timer queue: what the timerfd is set to, against the timers that wait. */
module TimerAlarm {
  import opened Wrappers
  import opened TimerSet
  import TimerModel

  /** The test in `insert` that decides whether a new timer rearms the alarm: as written it compares the
      wrong way round. */
  datatype Test = AsWritten | Intended

  predicate Arms(test: Test, es: seq<Entry>, when: int) {
    es == [] || if test == AsWritten then when > es[0].0 else when < es[0].0
  }

  /** `armed` is the time that the alarm will go off; it goes off once. */
  datatype Alarm = Alarm(entries: seq<Entry>, armed: Option<int>, calling: bool)

  const IDLE := Alarm([], None, false)

  /** Fired and Settled are the two ends of handleRead. */
  datatype Event = Added(e: Entry) | Cancelled(e: Entry) | Fired(now: int) | Settled(restarted: seq<Entry>)

  function InsertAll(es: seq<Entry>, more: seq<Entry>): seq<Entry>
    decreases |more|
  {
    if more == [] then es else InsertAll(Inserted(es, more[0]), more[1..])
  }

  predicate AllNew(es: seq<Entry>, more: seq<Entry>)
    decreases |more|
  {
    more == [] || (more[0] !in es && AllNew(Inserted(es, more[0]), more[1..]))
  }

  /** The clock is past the epoch; timers may have any expiration. */
  predicate Enabled(a: Alarm, ev: Event) {
    match ev
    case Added(e) => e !in a.entries
    case Cancelled(e) => e in a.entries
    case Fired(now) => !a.calling && now > 0
    case Settled(restarted) => a.calling && AllNew(a.entries, restarted) && forall e :: e in restarted ==> e.0 > 0
  }

  function Step(test: Test, a: Alarm, ev: Event): Alarm
    requires Enabled(a, ev)
  {
    match ev
    case Added(e) => Alarm(Inserted(a.entries, e), if Arms(test, a.entries, e.0) then Some(e.0) else a.armed, a.calling)
    case Cancelled(e) => a.(entries := Erased(a.entries, e))
    case Fired(now) => Alarm(a.entries[LowerBound(a.entries, (now, TimerModel.UINTPTR_MAX))..], None, true)
    case Settled(restarted) =>
      var es := InsertAll(a.entries, restarted);
      Alarm(es, if es != [] && es[0].0 > 0 then Some(es[0].0) else a.armed, false)
  }

  predicate IsRun(test: Test, a: Alarm, run: seq<Event>)
    decreases |run|
  {
    run == [] || (Enabled(a, run[0]) && IsRun(test, Step(test, a, run[0]), run[1..]))
  }

  function Final(test: Test, a: Alarm, run: seq<Event>): Alarm
    requires IsRun(test, a, run)
    decreases |run|
  {
    if run == [] then a else Final(test, Step(test, a, run[0]), run[1..])
  }

  /** The alarm is not later than the earliest timer. */
  predicate NotLate(es: seq<Entry>, armed: Option<int>) {
    es != [] ==> armed.Some? && armed.value <= es[0].0
  }

  /** While callbacks run the alarm may be off: it is set when they are done. */
  predicate Timely(a: Alarm) { !a.calling ==> NotLate(a.entries, a.armed) }

  lemma {:induction false} InsertAllIsSorted(es: seq<Entry>, more: seq<Entry>)
    requires Sorted(es) && AllNew(es, more)
    ensures Sorted(InsertAll(es, more))
    decreases |more|
  {
    if more != [] {
      InsertedIsSorted(es, more[0]);
      InsertAllIsSorted(Inserted(es, more[0]), more[1..]);
    }
    hide Sorted, Inserted;
  }

  lemma {:induction false} InsertAllAppend(es: seq<Entry>, more: seq<Entry>, e: Entry)
    ensures InsertAll(es, more + [e]) == Inserted(InsertAll(es, more), e)
    ensures AllNew(es, more + [e]) <==> AllNew(es, more) && e !in InsertAll(es, more)
    decreases |more|
  {
    if more == [] {
      assert more + [e] == [e] && [e][1..] == [];
    } else {
      InsertAllAppend(Inserted(es, more[0]), more[1..], e);
      assert (more + [e])[1..] == more[1..] + [e] && (more + [e])[0] == more[0];
    }
    hide Inserted;
  }

  /** Timers that are not due before the epoch do not get in front of one that is. */
  lemma {:induction false} InsertAllKeepsFirst(es: seq<Entry>, more: seq<Entry>)
    requires es != [] && es[0].0 <= 0 && forall e :: e in more ==> e.0 > 0
    ensures InsertAll(es, more) != [] && InsertAll(es, more)[0].0 == es[0].0
    decreases |more|
  {
    if more != [] {
      assert more[0] in more;
      FirstInserted(es, more[0]);
      InsertAllKeepsFirst(Inserted(es, more[0]), more[1..]);
    }
    hide Inserted;
  }

  lemma {:induction false} InsertAllFirst(es: seq<Entry>, more: seq<Entry>)
    requires (es != [] ==> es[0].0 > 0) && forall e :: e in more ==> e.0 > 0
    ensures InsertAll(es, more) != [] ==> InsertAll(es, more)[0].0 > 0
    decreases |more|
  {
    if more != [] {
      assert more[0] in more;
      FirstInserted(es, more[0]);
      InsertAllFirst(Inserted(es, more[0]), more[1..]);
    }
    hide Inserted;
  }

  lemma StepIsSorted(test: Test, a: Alarm, ev: Event)
    requires Sorted(a.entries) && Enabled(a, ev)
    ensures Sorted(Step(test, a, ev).entries)
  {
    match ev
    case Added(e) => InsertedIsSorted(a.entries, e); hide Inserted;
    case Cancelled(e) => ErasedIsSorted(a.entries, e); hide Erased;
    case Fired(_) => hide LowerBound;
    case Settled(restarted) => InsertAllIsSorted(a.entries, restarted); hide InsertAll;
  }

  lemma ErasedIsLater(es: seq<Entry>, e: Entry)
    requires Sorted(es) && e in es
    ensures Erased(es, e) != [] ==> Erased(es, e)[0].0 >= es[0].0
  {
    ErasedIsSorted(es, e);
    var r := Erased(es, e);
    hide Erased;
    if r != [] {
      assert r[0] in r;
      var i :| 0 <= i < |es| && es[i] == r[0];
      assert i > 0 ==> Less(es[0], es[i]);
    }
  }

  // ----- what the alarm is set to

  /** At the end of handleRead the alarm is set for the earliest timer, if that is due after the epoch. */
  lemma SettledAlarm(test: Test, a: Alarm, restarted: seq<Entry>)
    requires Sorted(a.entries) && Enabled(a, Settled(restarted))
    ensures var a' := Step(test, a, Settled(restarted));
            && Sorted(a'.entries) && !a'.calling
            && (forall e :: e in a'.entries <==> e in a.entries || e in restarted)
            && (a'.entries != [] && a'.entries[0].0 > 0 ==>
                  a'.armed == Some(a'.entries[0].0) && forall e :: e in a'.entries ==> a'.entries[0].0 <= e.0)
            && (a'.entries == [] || a'.entries[0].0 <= 0 ==> a'.armed == a.armed)
  {
    InsertAllIsSorted(a.entries, restarted);
    InsertAllHas(a.entries, restarted);
    var es := InsertAll(a.entries, restarted);
    hide InsertAll, AllNew;
    forall e | e in es ensures es[0].0 <= e.0 {
      var i :| 0 <= i < |es| && es[i] == e;
      assert i > 0 ==> Less(es[0], es[i]);
    }
  }

  lemma {:induction false} InsertAllHas(es: seq<Entry>, more: seq<Entry>)
    ensures forall e :: e in InsertAll(es, more) <==> e in es || e in more
    decreases |more|
  {
    if more != [] {
      InsertAllHas(Inserted(es, more[0]), more[1..]);
      forall e ensures e in InsertAll(es, more) <==> e in es || e in more {
        InsertedHas(es, more[0], e);
        assert e in more <==> e == more[0] || e in more[1..];
      }
    }
    hide Inserted;
  }

  /** What the alarm may be set to: the expiration of a timer added since the alarm last went off, or of the
      earliest one that was left when handleRead last ended. */
  function Candidates(test: Test, a: Alarm, run: seq<Event>, times: set<int>): set<int>
    requires IsRun(test, a, run)
    decreases |run|
  {
    if run == [] then times
    else
      var a' := Step(test, a, run[0]);
      var times' := match run[0]
        case Added(e) => times + {e.0}
        case Cancelled(_) => times
        case Fired(_) => {}
        case Settled(_) => if a'.entries == [] then times else times + {a'.entries[0].0};
      Candidates(test, a', run[1..], times')
  }

  lemma {:induction false} ArmedIsCandidate(test: Test, a: Alarm, run: seq<Event>, times: set<int>)
    requires IsRun(test, a, run) && (a.armed.Some? ==> a.armed.value in times)
    ensures Final(test, a, run).armed.Some? ==> Final(test, a, run).armed.value in Candidates(test, a, run, times)
    decreases |run|
  {
    if run != [] {
      var a' := Step(test, a, run[0]);
      var times' := match run[0]
        case Added(e) => times + {e.0}
        case Cancelled(_) => times
        case Fired(_) => {}
        case Settled(_) => if a'.entries == [] then times else times + {a'.entries[0].0};
      ArmedIsCandidate(test, a', run[1..], times');
    }
    hide Inserted, Erased, InsertAll, LowerBound;
  }

  /** In every run, with either test, the alarm is off or set for such a time. */
  lemma AlarmIsForATimer(test: Test, run: seq<Event>)
    requires IsRun(test, IDLE, run)
    ensures Final(test, IDLE, run).armed.Some? ==> Final(test, IDLE, run).armed.value in Candidates(test, IDLE, run, {})
  {
    ArmedIsCandidate(test, IDLE, run, {});
  }

  /** A new timer arms the alarm for itself or leaves it as it is; a cancellation leaves it, and going off
      turns it off. A timer that comes into an empty queue always arms. */
  lemma AlarmChanges(test: Test, a: Alarm, ev: Event)
    requires Enabled(a, ev)
    ensures var a' := Step(test, a, ev);
            match ev
            case Added(e) =>
              a'.armed == if a.entries == [] || (if test == AsWritten then e.0 > a.entries[0].0 else e.0 < a.entries[0].0)
                          then Some(e.0) else a.armed
            case Cancelled(_) => a'.armed == a.armed
            case Fired(now) => a'.armed == None && a'.calling
            case Settled(_) => !a'.calling
  {
  }

  /** The timer that the alarm is set for may have been added before the alarm last went off. */
  lemma AlarmForAnOlderTimer()
    ensures var run := [Added((10, 1)), Added((20, 2)), Fired(15), Settled([])];
            IsRun(Intended, IDLE, run) && Final(Intended, IDLE, run) == Alarm([(20, 2)], Some(20), false)
  {
    var run := [Added((10, 1)), Added((20, 2)), Fired(15), Settled([])];
    var two := Alarm([(10, 1), (20, 2)], Some(10), false);
    var fired := Alarm([(20, 2)], None, true);
    var done := Alarm([(20, 2)], Some(20), false);
    assert Inserted([], (10, 1)) == [(10, 1)];
    assert Step(Intended, IDLE, run[0]) == Alarm([(10, 1)], Some(10), false);
    assert Step(Intended, Alarm([(10, 1)], Some(10), false), run[1]) == two by {
      assert LowerBound([(10, 1)], (20, 2)) == 1;
    }
    assert Step(Intended, two, run[2]) == fired by {
      assert LowerBound(two.entries, (15, TimerModel.UINTPTR_MAX)) == 1;
    }
    assert Step(Intended, fired, run[3]) == done;
    hide Step;
    assert run[1..] == [run[1], run[2], run[3]] && run[1..][1..] == [run[2], run[3]] && run[1..][1..][1..] == [run[3]];
    assert run[1..][1..][1..][1..] == [];
    assert IsRun(Intended, done, []) && Final(Intended, done, []) == done;
    assert IsRun(Intended, fired, [run[3]]) && Final(Intended, fired, [run[3]]) == done;
    assert IsRun(Intended, two, [run[2], run[3]]) && Final(Intended, two, [run[2], run[3]]) == done;
  }

  // ----- with the test the right way round

  /** Between callbacks the alarm may be off, unless a timer waits that the end of handleRead would not arm. */
  predicate Inv(a: Alarm) {
    Sorted(a.entries) && Timely(a) && (a.entries != [] && a.entries[0].0 <= 0 ==> NotLate(a.entries, a.armed))
  }

  lemma StepKeepsInv(a: Alarm, ev: Event)
    requires Inv(a) && Enabled(a, ev)
    ensures Inv(Step(Intended, a, ev))
  {
    StepIsSorted(Intended, a, ev);
    match ev
    case Added(e) => FirstInserted(a.entries, e); hide Inserted, Sorted;
    case Cancelled(e) => ErasedIsLater(a.entries, e); hide Erased, Sorted;
    case Fired(_) => hide Sorted;
    case Settled(restarted) =>
      if a.entries != [] && a.entries[0].0 <= 0 {
        InsertAllKeepsFirst(a.entries, restarted);
      } else {
        InsertAllFirst(a.entries, restarted);
      }
      hide InsertAll, Sorted;
  }

  lemma {:induction false} RunKeepsInv(a: Alarm, run: seq<Event>)
    requires Inv(a) && IsRun(Intended, a, run)
    ensures Inv(Final(Intended, a, run))
    decreases |run|
  {
    if run != [] {
      StepKeepsInv(a, run[0]);
      RunKeepsInv(Step(Intended, a, run[0]), run[1..]);
    }
    hide Inv, Step, Enabled;
  }

  /** With `<`, the alarm is never later than the earliest timer, in any run of additions, cancellations and
      expiries. */
  lemma AlarmIsTimely(run: seq<Event>)
    requires IsRun(Intended, IDLE, run)
    ensures Timely(Final(Intended, IDLE, run))
  {
    RunKeepsInv(IDLE, run);
  }

  // ----- with the test as written

  /** What has to hold when an event happens. A timer added outside handleRead must be the only one, or tie
      with the earliest, or be due no earlier than an alarm that is already too early. At the end of
      handleRead the earliest timer must be due after the epoch, or the callbacks must have armed for it. */
  predicate Safe(a: Alarm, ev: Event)
    requires Enabled(a, ev)
  {
    match ev
    case Added(e) =>
      || a.calling || a.entries == [] || e.0 == a.entries[0].0
      || (e.0 < a.entries[0].0 && a.armed.Some? && a.armed.value <= e.0)
    case Settled(restarted) =>
      var es := InsertAll(a.entries, restarted);
      es == [] || es[0].0 > 0 || (a.armed.Some? && a.armed.value <= es[0].0)
    case _ => true
  }

  lemma StepIsTimelyIfSafe(a: Alarm, ev: Event)
    requires Sorted(a.entries) && Timely(a) && Enabled(a, ev)
    ensures Timely(Step(AsWritten, a, ev)) <==> Safe(a, ev)
  {
    match ev
    case Added(e) => FirstInserted(a.entries, e); hide Inserted, Sorted;
    case Cancelled(e) => ErasedIsLater(a.entries, e); hide Erased, Sorted;
    case Fired(_) => hide Sorted;
    case Settled(_) => hide InsertAll, Sorted;
  }

  /** In every state of the run. */
  predicate AlwaysTimely(a: Alarm, run: seq<Event>)
    requires IsRun(AsWritten, a, run)
    decreases |run|
  {
    Timely(a) && (run == [] || AlwaysTimely(Step(AsWritten, a, run[0]), run[1..]))
  }

  predicate AlwaysSafe(a: Alarm, run: seq<Event>)
    requires IsRun(AsWritten, a, run)
    decreases |run|
  {
    run == [] || (Safe(a, run[0]) && AlwaysSafe(Step(AsWritten, a, run[0]), run[1..]))
  }

  lemma {:induction false} RunIsTimelyIfSafe(a: Alarm, run: seq<Event>)
    requires Sorted(a.entries) && Timely(a) && IsRun(AsWritten, a, run)
    ensures AlwaysTimely(a, run) <==> AlwaysSafe(a, run)
    decreases |run|
  {
    if run != [] {
      StepIsTimelyIfSafe(a, run[0]);
      StepIsSorted(AsWritten, a, run[0]);
      if Safe(a, run[0]) {
        RunIsTimelyIfSafe(Step(AsWritten, a, run[0]), run[1..]);
      }
    }
    hide Step, Enabled, Safe, Timely, Sorted;
  }

  /** As written, the alarm is never late in a run exactly if each of its events is safe. */
  lemma AlarmIsTimelyIfSafe(run: seq<Event>)
    requires IsRun(AsWritten, IDLE, run)
    ensures AlwaysTimely(IDLE, run) <==> AlwaysSafe(IDLE, run)
  {
    RunIsTimelyIfSafe(IDLE, run);
  }

  /** A later timer postpones the alarm of an earlier one, and an earlier timer is not armed for. */
  lemma AlarmIsLate(later: int, earlier: int)
    requires earlier < later
    ensures var both := [Added((earlier, 1)), Added((later, 2))];
            IsRun(AsWritten, IDLE, both) && !Timely(Final(AsWritten, IDLE, both))
    ensures var both := [Added((later, 2)), Added((earlier, 1))];
            IsRun(AsWritten, IDLE, both) && !Timely(Final(AsWritten, IDLE, both))
  {
    TwoAdded((earlier, 1), (later, 2));
    TwoAdded((later, 2), (earlier, 1));
  }

  lemma TwoAdded(e: Entry, f: Entry)
    requires e.0 != f.0
    ensures var run := [Added(e), Added(f)];
            IsRun(AsWritten, IDLE, run) && !Timely(Final(AsWritten, IDLE, run))
  {
    var run := [Added(e), Added(f)];
    var one := Alarm([e], Some(e.0), false);
    assert Inserted([], e) == [e];
    assert Step(AsWritten, IDLE, run[0]) == one;
    StepIsTimelyIfSafe(one, run[1]);
    var two := Step(AsWritten, one, run[1]);
    hide Step;
    assert run[1..] == [run[1]] && run[1..][1..] == [];
    assert IsRun(AsWritten, two, []) && Final(AsWritten, two, []) == two;
    assert IsRun(AsWritten, one, [run[1]]) && Final(AsWritten, one, [run[1]]) == two;
  }
}
