/** What a timer queue is for, without its data structures: timers are identified by their sequence
    number alone, and each is in exactly one place. Callbacks re-enter `Add` and `Cancel` between any
    two `RunNext` steps; other threads may `Create` at any point. */
module TimerModel {

  const UINTPTR_MAX: nat := 0xFFFF_FFFF_FFFF_FFFF

  type Time = int
  type Address = a: nat | a < UINTPTR_MAX
  type Sequence = nat

  datatype Where =
    | PendingAdd                    // allocated, its addTimerInLoop has not run yet
    | Active                        // waiting in the queue
    | Expired(cancelled: bool)      // in the current batch of expired timers
    | Freed

  datatype Timer = Timer(address: Address, expiration: Time, repeat: bool, interval: nat, where: Where)

  datatype Queue = Queue(
    timers: map<Sequence, Timer>,   // every timer ever created
    created: nat,                   // Timer::s_numCreated_
    calling: bool,                  // callingExpiredTimers_
    batch: seq<Sequence>,           // the expired batch, in the order it runs
    next: nat,                      // how many of the batch have run
    log: seq<Sequence>)             // history: the timers run so far

  const EMPTY := Queue(map[], 0, false, [], 0, [])

  datatype Action =
    | Create(address: Address, when: Time, repeat: bool, interval: nat)
    | Add(sequence: Sequence)
    | Cancel(address: Address, sequence: Sequence)
    | Expire(now: Time, due: seq<Sequence>)
    | RunNext
    | Settle(now: Time)

  ghost predicate Live(q: Queue, a: Address) {
    exists s :: s in q.timers && q.timers[s].address == a && q.timers[s].where != Freed
  }

  predicate IsDue(t: Timer, now: Time) {
    t.where == Active && t.expiration <= now
  }

  /** The order of std::pair<Timestamp, Timer*>. */
  predicate Before(t: Timer, u: Timer) {
    t.expiration < u.expiration || (t.expiration == u.expiration && t.address < u.address)
  }

  /** `due` lists exactly the active timers that expire by `now`, in queue order. */
  ghost predicate IsDueList(timers: map<Sequence, Timer>, now: Time, due: seq<Sequence>) {
    && (forall s :: s in due <==> s in timers && IsDue(timers[s], now))
    && forall i, j :: 0 <= i < j < |due| ==> Before(timers[due[i]], timers[due[j]])
  }

  ghost predicate Enabled(q: Queue, a: Action) {
    match a
    case Create(address, _, _, _) => !Live(q, address)
    case Add(s) => s in q.timers && q.timers[s].where == PendingAdd
    case Cancel(_, _) => true
    case Expire(now, due) => !q.calling && IsDueList(q.timers, now, due)
    case RunNext => q.calling && q.next < |q.batch|
    case Settle(_) => q.calling && q.next == |q.batch|
  }

  function Cancelled(t: Timer): Timer {
    match t.where
    case Active => t.(where := Freed)
    case Expired(_) => t.(where := Expired(true))
    case _ => t
  }

  function Settled(t: Timer, now: Time): Timer {
    if t.repeat && t.where == Expired(false)
    then t.(expiration := now + t.interval, where := Active)
    else t.(where := Freed)
  }

  function SettleAll(timers: map<Sequence, Timer>, batch: seq<Sequence>, now: Time): (r: map<Sequence, Timer>)
    requires forall s :: s in batch ==> s in timers
    ensures r.Keys == timers.Keys
    ensures forall s :: s in timers && s !in batch ==> r[s] == timers[s]
    decreases |batch|
  {
    if batch == [] then timers
    else SettleAll(timers[batch[0] := Settled(timers[batch[0]], now)], batch[1..], now)
  }

  function Step(q: Queue, a: Action): Queue
    requires Inv(q) && Enabled(q, a)
  {
    match a
    case Create(address, when, repeat, interval) =>
      q.(created := q.created + 1,
         timers := q.timers[q.created + 1 := Timer(address, when, repeat, interval, PendingAdd)])
    case Add(s) => q.(timers := q.timers[s := q.timers[s].(where := Active)])
    case Cancel(address, s) =>
      if s in q.timers && q.timers[s].address == address
      then q.(timers := q.timers[s := Cancelled(q.timers[s])])
      else q
    case Expire(now, due) =>
      q.(calling := true, batch := due, next := 0,
         timers := map s | s in q.timers ::
           if IsDue(q.timers[s], now) then q.timers[s].(where := Expired(false)) else q.timers[s])
    case RunNext => q.(next := q.next + 1, log := q.log + [q.batch[q.next]])
    case Settle(now) => q.(calling := false, batch := [], next := 0, timers := SettleAll(q.timers, q.batch, now))
  }

  predicate Distinct(s: seq<Sequence>) {
    forall i, j :: 0 <= i < j < |s| ==> s[i] != s[j]
  }

  /** Two timers that hold the same address at the same time. */
  predicate Share(t: Timer, u: Timer) {
    t.where != Freed && u.where != Freed && t.address == u.address
  }

  /** The part of the invariant that also holds while a batch is being settled. */
  ghost predicate Coherent(q: Queue) {
    && (forall s :: s in q.timers ==> 1 <= s <= q.created)
    && Distinct(q.batch)
    && (forall s :: s in q.batch <==> s in q.timers && q.timers[s].where.Expired?)
    && (forall s, s' :: s in q.timers && s' in q.timers && Share(q.timers[s], q.timers[s']) ==> s == s')
  }

  ghost predicate Inv(q: Queue) {
    && Coherent(q)
    && q.next <= |q.batch|
    && (!q.calling ==> q.batch == [])
  }

  lemma {:induction false} SettleAllAt(timers: map<Sequence, Timer>, batch: seq<Sequence>, now: Time)
    requires Distinct(batch) && forall s :: s in batch ==> s in timers
    ensures forall s :: s in batch ==> SettleAll(timers, batch, now)[s] == Settled(timers[s], now)
    decreases |batch|
  {
    if batch != [] {
      var s0 := batch[0];
      assert s0 !in batch[1..];
      var timers' := timers[s0 := Settled(timers[s0], now)];
      SettleAllAt(timers', batch[1..], now);
      assert forall s :: s in batch ==> s == s0 || s in batch[1..];
    }
  }

  lemma ExpireKeepsInv(q: Queue, now: Time, due: seq<Sequence>)
    requires Inv(q) && Enabled(q, Expire(now, due))
    ensures Inv(Step(q, Expire(now, due)))
  {
    var q' := Step(q, Expire(now, due));
    forall i, j | 0 <= i < j < |due| ensures due[i] != due[j] {
      assert Before(q.timers[due[i]], q.timers[due[j]]);
    }
    forall s, s' | s in q'.timers && s' in q'.timers && Share(q'.timers[s], q'.timers[s']) ensures s == s' {
      assert Share(q.timers[s], q.timers[s']);
    }
  }

  lemma SettledTimer(q: Queue, now: Time, s: Sequence)
    requires Inv(q) && s in q.timers
    ensures var t := SettleAll(q.timers, q.batch, now)[s];
            !t.where.Expired? && t.address == q.timers[s].address && (t.where != Freed ==> q.timers[s].where != Freed)
  {
    SettleAllAt(q.timers, q.batch, now);
    hide SettleAll;
  }

  lemma SettleKeepsInv(q: Queue, now: Time)
    requires Inv(q) && Enabled(q, Settle(now))
    ensures Inv(Step(q, Settle(now)))
  {
    var q' := Step(q, Settle(now));
    forall s | s in q.timers
      ensures !q'.timers[s].where.Expired? && q'.timers[s].address == q.timers[s].address
      ensures q'.timers[s].where != Freed ==> q.timers[s].where != Freed
    {
      SettledTimer(q, now, s);
    }
    hide SettleAll;
    forall s, s' | s in q'.timers && s' in q'.timers && Share(q'.timers[s], q'.timers[s']) ensures s == s' {
      assert Share(q.timers[s], q.timers[s']);
    }
  }

  lemma StepKeepsInv(q: Queue, a: Action)
    requires Inv(q) && Enabled(q, a)
    ensures Inv(Step(q, a))
  {
    match a {
      case Expire(now, due) => ExpireKeepsInv(q, now, due);
      case Settle(now) => SettleKeepsInv(q, now);
      case _ =>
    }
  }

  // ----- runs

  ghost predicate IsRun(q: Queue, run: seq<Action>)
    requires Inv(q)
    decreases |run|
  {
    run == [] || (Enabled(q, run[0]) && (StepKeepsInv(q, run[0]); IsRun(Step(q, run[0]), run[1..])))
  }

  function Final(q: Queue, run: seq<Action>): (r: Queue)
    requires Inv(q) && IsRun(q, run)
    ensures Inv(r)
    decreases |run|
  {
    if run == [] then q else StepKeepsInv(q, run[0]); Final(Step(q, run[0]), run[1..])
  }

  function Count(log: seq<Sequence>, s: Sequence): nat {
    if log == [] then 0 else Count(log[..|log| - 1], s) + (if log[|log| - 1] == s then 1 else 0)
  }

  /** Whether `s` is in the batch and has not run yet. */
  predicate Awaits(q: Queue, s: Sequence)
    requires q.next <= |q.batch|
  {
    s in q.batch[q.next..]
  }

  /** A timer that can never be queued again. */
  predicate Doomed(q: Queue, s: Sequence) {
    s in q.timers && (q.timers[s].where == Freed || q.timers[s].where == Expired(true))
  }

  lemma DoomedStep(q: Queue, a: Action, s: Sequence)
    requires Inv(q) && Enabled(q, a) && Doomed(q, s)
    ensures var q' := Step(q, a);
            && Doomed(q', s)
            && Inv(q')
            && Count(q'.log, s) + (if Awaits(q', s) then 1 else 0) <= Count(q.log, s) + (if Awaits(q, s) then 1 else 0)
  {
    StepKeepsInv(q, a);
    match a {
      case RunNext =>
        var q' := Step(q, a);
        assert q'.log[..|q'.log| - 1] == q.log;
        assert q.batch[q.next..] == [q.batch[q.next]] + q'.batch[q'.next..];
      case Settle(now) => SettleAllAt(q.timers, q.batch, now); hide SettleAll;
      case _ =>
    }
  }

  /** Cancel is final: from the moment a timer is doomed, no continuation of any kind queues it
      again, and it runs at most once more, and only if the current batch still holds it unrun. */
  lemma {:induction false} CancelIsFinal(q: Queue, run: seq<Action>, s: Sequence)
    requires Inv(q) && IsRun(q, run) && Doomed(q, s)
    ensures var e := Final(q, run);
            && Doomed(e, s)
            && e.timers[s].where != Active
            && Count(e.log, s) <= Count(q.log, s) + (if Awaits(q, s) then 1 else 0)
    decreases |run|
  {
    if run != [] {
      DoomedStep(q, run[0], s);
      CancelIsFinal(Step(q, run[0]), run[1..], s);
    }
  }

  /** Cancelling dooms exactly the timer it names, if that timer is in the queue or in the batch, and
      leaves every other timer alone, in particular one that now lives at the same address. */
  lemma CancelDooms(q: Queue, address: Address, s: Sequence)
    requires Inv(q)
    ensures var q' := Step(q, Cancel(address, s));
            && (s in q.timers && q.timers[s].address == address ==>
                  (Doomed(q', s) <==> q.timers[s].where != PendingAdd))
            && (forall s' :: s' in q.timers && s' != s ==> s' in q'.timers && q'.timers[s'] == q.timers[s'])
            && q'.timers.Keys == q.timers.Keys
  {
  }

  lemma {:induction false} BatchRunsInOrder(q: Queue, run: seq<Action>)
    requires Inv(q) && q.calling && IsRun(q, run)
    requires forall a :: a in run ==> !a.Settle?
    ensures var e := Final(q, run);
            && e.calling && e.batch == q.batch && q.next <= e.next
            && e.log == q.log + q.batch[q.next..e.next]
    decreases |run|
  {
    if run == [] {
      assert q.batch[q.next..q.next] == [];
    } else {
      StepKeepsInv(q, run[0]);
      var q' := Step(q, run[0]);
      assert run[0] in run && forall a :: a in run[1..] ==> a in run;
      BatchRunsInOrder(q', run[1..]);
      var e := Final(q, run);
      if run[0] == RunNext {
        assert q.log + [q.batch[q.next]] + q.batch[q'.next..e.next] == q.log + q.batch[q.next..e.next];
      }
    }
  }

  /** A whole handleRead: whatever its callbacks and other threads add, cancel or create meanwhile,
      exactly the timers that were due run, each once, in order of expiration, and at the end each of
      them is queued again one interval after `now` if it repeats and was not cancelled meanwhile,
      and freed otherwise. */
  lemma HandleReadRunsTheDue(q: Queue, now: Time, due: seq<Sequence>, q1: Queue, callbacks: seq<Action>, b: Queue)
    requires Inv(q) && Enabled(q, Expire(now, due)) && q1 == Step(q, Expire(now, due))
    requires Inv(q1) && IsRun(q1, callbacks) && (forall a :: a in callbacks ==> !a.Settle?)
    requires b == Final(q1, callbacks) && Enabled(b, Settle(now))
    ensures var e := Step(b, Settle(now));
            && e.log == q.log + due
            && (forall s :: s in due ==>
                  && s in b.timers && b.timers[s].where.Expired? && s in e.timers
                  && e.timers[s] == if b.timers[s].repeat && !b.timers[s].where.cancelled
                                    then b.timers[s].(expiration := now + b.timers[s].interval, where := Active)
                                    else b.timers[s].(where := Freed))
            && (forall s :: s in b.timers && s !in due ==> s in e.timers && e.timers[s] == b.timers[s])
  {
    BatchRunsInOrder(q1, callbacks);
    SettleAllAt(b.timers, b.batch, now);
    assert due[0..|due|] == due;
  }

  // ----- a timer's time

  /** Neither cancelled nor due anywhere in the run. */
  predicate LeftAlone(run: seq<Action>, s: Sequence, t: Timer) {
    forall a :: a in run ==> a != Cancel(t.address, s) && !(a.Expire? && t.expiration <= a.now)
  }

  lemma WaitingStep(q: Queue, a: Action, s: Sequence)
    requires Inv(q) && Enabled(q, a) && s in q.timers && (q.timers[s].where == PendingAdd || q.timers[s].where == Active)
    requires a != Cancel(q.timers[s].address, s) && !(a.Expire? && q.timers[s].expiration <= a.now)
    ensures var q' := Step(q, a);
            s in q'.timers && q'.timers[s] == if a == Add(s) then q.timers[s].(where := Active) else q.timers[s]
  {
    if a.Settle? {
      assert s !in q.batch;
    }
    hide SettleAll;
  }

  lemma {:induction false} WaitsUntilDue(q: Queue, run: seq<Action>, s: Sequence)
    requires Inv(q) && IsRun(q, run) && s in q.timers && (q.timers[s].where == PendingAdd || q.timers[s].where == Active)
    requires LeftAlone(run, s, q.timers[s])
    ensures var e := Final(q, run);
            s in e.timers && e.timers[s] == if Add(s) in run then q.timers[s].(where := Active) else q.timers[s]
    decreases |run|
  {
    if run != [] {
      assert run[0] in run && forall a :: a in run[1..] ==> a in run;
      WaitingStep(q, run[0], s);
      StepKeepsInv(q, run[0]);
      WaitsUntilDue(Step(q, run[0]), run[1..], s);
      assert Add(s) in run <==> run[0] == Add(s) || Add(s) in run[1..];
    }
    hide Step, Inv, Enabled;
  }

  /** A timer created for a time and put into the queue, and not cancelled, is in the batch of the first
      handleRead at or after that time, and in none before. */
  lemma TimerRunsWhenDue(q: Queue, create: Action, q': Queue, run: seq<Action>, now: Time, due: seq<Sequence>)
    requires Inv(q) && create.Create? && Enabled(q, create) && q' == Step(q, create) && Inv(q')
    requires IsRun(q', run) && LeftAlone(run, q'.created, Timer(create.address, create.when, create.repeat, create.interval, PendingAdd))
    requires Add(q'.created) in run && Enabled(Final(q', run), Expire(now, due))
    ensures q'.created == q.created + 1 && q'.created !in q.timers
    ensures q'.created in due <==> create.when <= now
    ensures forall s :: s in q.timers ==> s in q'.timers && q'.timers[s] == q.timers[s]
  {
    var s := q'.created;
    assert q'.timers[s] == Timer(create.address, create.when, create.repeat, create.interval, PendingAdd);
    WaitsUntilDue(q', run, s);
    hide Inv;
  }
}
