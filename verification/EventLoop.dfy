/** The cross-thread functor handoff of `EventLoop`: one loop thread and any number of posting
    threads, interleaved at the granularity of their atomic steps. A locked section, a store to an
    atomic flag, an eventfd read or write and a poll are one step each. */
module EventLoop {
  import opened Wrappers

  type Functor = nat
  type ThreadId = nat

  /** The eventfd counter saturates: a write that would exceed this value fails and leaves it. */
  const EVENTFD_MAX: nat := 0xFFFF_FFFF_FFFF_FFFE

  /** Where the loop thread stands in `loop()` and `doPendingFunctors()`. */
  datatype LoopPc =
    | Idle                        // before loop(), or after it has returned
    | Testing                     // about to evaluate `!quit_`
    | Polling                     // about to block in, or blocked in, poll
    | Handling(wakeup: bool)      // dispatching channels; is the wakeup channel active and unread?
    | Entering                    // doPendingFunctors before the flag store
    | Swapping                    // flag set, before the locked swap
    | Running(inFunctor: bool)    // iterating over the swapped-out batch

  datatype State = State(
    pc: LoopPc,
    posting: bool,                // the loop thread is between its push and its wakeup test
    pending: seq<Functor>,        // pendingFunctors_
    batch: seq<Functor>,          // the part of `functors` that has not run yet
    calling: bool,                // callingPendingFunctors_
    quit: bool,                   // quit_
    counter: nat,                 // the eventfd counter behind wakeupFd_
    writers: set<ThreadId>,       // other threads between a push or quit store and their wakeup()
    executed: seq<Functor>,       // history: functors run, in order
    pushed: seq<Functor>)         // history: functors pushed, in order

  datatype Action =
    | StartLoop
    | TestQuit
    | PollReturns(wakeup: bool)
    | HandleRead
    | HandlersDone
    | SetCalling
    | SwapPending
    | RunNext
    | FinishBatch
    | LoopPush(f: Functor)
    | LoopWakeup
    | LoopQuit
    | Push(t: ThreadId, f: Functor)
    | StoreQuit(t: ThreadId)
    | Wakeup(t: ThreadId)

  /** The constructor leaves callingPendingFunctors_ uninitialised, so any value of it is initial. */
  predicate Initial(s: State) {
    s == State(Idle, false, [], [], s.calling, false, 0, {}, [], [])
  }

  /** User code runs on the loop thread inside event handlers, inside functors and outside loop(). */
  predicate InUserCode(s: State) {
    !s.posting && (s.pc.Handling? || s.pc == Running(true) || s.pc == Idle)
  }

  predicate Enabled(s: State, a: Action) {
    match a
    case StartLoop => s.pc == Idle && !s.posting
    case TestQuit => s.pc == Testing
    case PollReturns(wakeup) => s.pc == Polling && (wakeup ==> s.counter > 0)
    case HandleRead => s.pc == Handling(true) && !s.posting
    case HandlersDone => s.pc == Handling(false) && !s.posting
    case SetCalling => s.pc == Entering
    case SwapPending => s.pc == Swapping
    case RunNext => s.pc.Running? && !s.posting && s.batch != []
    case FinishBatch => s.pc.Running? && !s.posting && s.batch == []
    case LoopPush(_) => InUserCode(s)
    case LoopWakeup => s.posting
    case LoopQuit => InUserCode(s)
    case Push(t, _) => t !in s.writers
    case StoreQuit(t) => t !in s.writers
    case Wakeup(t) => t in s.writers
  }

  function Bump(counter: nat): nat {
    if counter < EVENTFD_MAX then counter + 1 else counter
  }

  function Step(s: State, a: Action): State
    requires Enabled(s, a)
  {
    match a
    case StartLoop => s.(pc := Testing, quit := false)
    case TestQuit => s.(pc := if s.quit then Idle else Polling)
    case PollReturns(wakeup) => s.(pc := Handling(wakeup))
    case HandleRead => s.(pc := Handling(false), counter := 0)
    case HandlersDone => s.(pc := Entering)
    case SetCalling => s.(pc := Swapping, calling := true)
    case SwapPending => s.(pc := Running(false), batch := s.pending, pending := [])
    case RunNext => s.(pc := Running(true), executed := s.executed + [s.batch[0]], batch := s.batch[1..])
    case FinishBatch => s.(pc := Testing, calling := false)
    case LoopPush(f) => s.(pending := s.pending + [f], pushed := s.pushed + [f], posting := true)
    case LoopWakeup => s.(posting := false, counter := if s.calling then Bump(s.counter) else s.counter)
    case LoopQuit => s.(quit := true)
    case Push(t, f) => s.(pending := s.pending + [f], pushed := s.pushed + [f], writers := s.writers + {t})
    case StoreQuit(t) => s.(quit := true, writers := s.writers + {t})
    case Wakeup(t) => s.(counter := Bump(s.counter), writers := s.writers - {t})
  }

  /** Every action of `run` is enabled where it is taken. */
  predicate IsRun(s: State, run: seq<Action>)
    decreases |run|
  {
    run == [] || (Enabled(s, run[0]) && IsRun(Step(s, run[0]), run[1..]))
  }

  function Final(s: State, run: seq<Action>): State
    requires IsRun(s, run)
    decreases |run|
  {
    if run == [] then s else Final(Step(s, run[0]), run[1..])
  }

  // ----- invariants

  /** The loop will not sleep: the eventfd is readable, or another thread is about to write it. */
  predicate WillWake(s: State) {
    s.counter > 0 || s.writers != {}
  }

  /** The loop thread's own post skips the wakeup unless callingPendingFunctors_ is set. That is
      harmless inside loop(); outside it, something else must be about to wake the loop. */
  predicate Prompt(s: State, a: Action) {
    a.LoopPush? && s.pc == Idle ==> s.calling || WillWake(s)
  }

  predicate IsPromptRun(s: State, run: seq<Action>)
    requires IsRun(s, run)
    decreases |run|
  {
    run == [] || (Prompt(s, run[0]) && IsPromptRun(Step(s, run[0]), run[1..]))
  }

  /** Between the swap and the next poll, nothing may sit in the queue without a wakeup on its way. */
  predicate NothingStranded(s: State) {
    s.pc.Idle? || s.pc.Testing? || s.pc.Polling? || s.pc.Running? ==>
      s.pending == [] || WillWake(s) || (s.posting && s.calling)
  }

  predicate Fifo(s: State) {
    && s.executed + s.batch + s.pending == s.pushed
    && (s.batch != [] ==> s.pc.Running?)
  }

  predicate Inv(s: State) {
    && Fifo(s)
    && (s.pc.Running? || s.pc.Swapping? ==> s.calling)
    && (s.posting ==> s.pc.Handling? || s.pc == Running(true) || s.pc == Idle)
    && NothingStranded(s)
    && (s.pc == Polling && s.quit ==> WillWake(s))
  }

  lemma StepKeepsFifo(s: State, a: Action)
    requires Fifo(s) && Enabled(s, a)
    ensures Fifo(Step(s, a))
  {
    var s' := Step(s, a);
    match a {
      case RunNext => assert s'.executed + s'.batch == s.executed + s.batch;
      case LoopPush(f) => assert s'.executed + s'.batch + s'.pending == s.executed + s.batch + s.pending + [f];
      case Push(_, f) => assert s'.executed + s'.batch + s'.pending == s.executed + s.batch + s.pending + [f];
      case _ => assert s'.executed + s'.batch + s'.pending == s.executed + s.batch + s.pending;
    }
  }

  lemma StepKeepsInv(s: State, a: Action)
    requires Inv(s) && Enabled(s, a) && Prompt(s, a)
    ensures Inv(Step(s, a))
  {
    StepKeepsFifo(s, a);
    if a.Push? || a.StoreQuit? {
      assert a.t in Step(s, a).writers;
    }
  }

  lemma {:induction false} RunKeepsInv(s: State, run: seq<Action>)
    requires Inv(s) && IsRun(s, run) && IsPromptRun(s, run)
    ensures Inv(Final(s, run))
    decreases |run|
  {
    if run != [] {
      StepKeepsInv(s, run[0]);
      RunKeepsInv(Step(s, run[0]), run[1..]);
    }
  }

  lemma {:induction false} RunKeepsFifo(s: State, run: seq<Action>)
    requires Fifo(s) && IsRun(s, run)
    ensures Fifo(Final(s, run))
    decreases |run|
  {
    if run != [] {
      StepKeepsFifo(s, run[0]);
      RunKeepsFifo(Step(s, run[0]), run[1..]);
    }
  }

  // ----- main results

  /** No lost wakeup: however the threads interleave, a loop thread that is about to block in poll
      with a functor queued or a quit requested is woken. */
  lemma NoLostWakeup(s: State, run: seq<Action>)
    requires Initial(s) && IsRun(s, run) && IsPromptRun(s, run)
    ensures var e := Final(s, run);
            e.pc == Polling && (e.pending != [] || e.quit) ==> e.counter > 0 || e.writers != {}
  {
    RunKeepsInv(s, run);
  }

  /** Exactly once, in order: what has run, what is left of the batch and what is queued are, in
      this order, all the pushes ever made. */
  lemma FifoExactlyOnce(s: State, run: seq<Action>)
    requires Initial(s) && IsRun(s, run)
    ensures var e := Final(s, run); e.executed + e.batch + e.pending == e.pushed
  {
    RunKeepsFifo(s, run);
  }

  /** The condition in `Prompt` is exact: if the loop thread posts outside loop() and then enters
      it, it blocks on a queued functor with nothing to wake it exactly when the condition fails. */
  lemma IdlePostNeedsPrompting(s: State, f: Functor)
    requires Inv(s) && s.pc == Idle && !s.posting
    ensures var run := [LoopPush(f), LoopWakeup, StartLoop, TestQuit];
            && IsRun(s, run)
            && var e := Final(s, run);
               && e.pc == Polling && f in e.pending
               && (e.counter > 0 || e.writers != {} <==> Prompt(s, LoopPush(f)))
  {
    var run := [LoopPush(f), LoopWakeup, StartLoop, TestQuit];
    var s1 := Step(s, LoopPush(f));
    var s2 := Step(s1, LoopWakeup);
    var s3 := Step(s2, StartLoop);
    Prefixed(s3, TestQuit, []);
    Prefixed(s2, StartLoop, [TestQuit]);
    Prefixed(s1, LoopWakeup, [StartLoop, TestQuit]);
    Prefixed(s, LoopPush(f), [LoopWakeup, StartLoop, TestQuit]);
    assert run == [LoopPush(f)] + [LoopWakeup, StartLoop, TestQuit];
    assert [TestQuit] + [] == [TestQuit];
    assert [StartLoop] + [TestQuit] == [StartLoop, TestQuit];
    assert [LoopWakeup] + [StartLoop, TestQuit] == [LoopWakeup, StartLoop, TestQuit];
  }

  function RunsIn(run: seq<Action>): nat {
    if run == [] then 0 else (if run[0] == RunNext then 1 else 0) + RunsIn(run[1..])
  }

  /** A batch is closed when it is swapped out: whatever is pushed until the loop leaves it, by any
      thread or by the batch itself, only the functors swapped out can run, so at most that many do. */
  lemma {:induction false} BatchIsClosed(s: State, run: seq<Action>)
    requires s.pc.Running? && IsRun(s, run) && FinishBatch !in run
    ensures var e := Final(s, run);
            && e.pc.Running?
            && e.executed + e.batch == s.executed + s.batch
            && RunsIn(run) + |e.batch| == |s.batch|
    decreases |run|
  {
    if run != [] {
      var s' := Step(s, run[0]);
      assert s'.executed + s'.batch == s.executed + s.batch;
      assert run[0] in run && forall a :: a in run[1..] ==> a in run;
      BatchIsClosed(s', run[1..]);
    }
  }

  lemma Prefixed(s: State, a: Action, rest: seq<Action>)
    requires Enabled(s, a) && IsRun(Step(s, a), rest)
    ensures IsRun(s, [a] + rest) && Final(s, [a] + rest) == Final(Step(s, a), rest)
  {
    assert ([a] + rest)[1..] == rest;
  }

  function Drain(n: nat): seq<Action> {
    if n == 0 then [FinishBatch] else [RunNext] + Drain(n - 1)
  }

  /** One round of the loop thread on its own, entered through the wakeup channel. */
  function SoloRound(s: State): seq<Action> {
    [PollReturns(true)] + ([HandleRead] + ([HandlersDone] + ([SetCalling] + ([SwapPending] + Drain(|s.pending|)))))
  }

  lemma {:induction false} DrainRunsTheBatch(s: State)
    requires s.pc.Running? && !s.posting
    ensures IsRun(s, Drain(|s.batch|))
    ensures Final(s, Drain(|s.batch|)) ==
            s.(pc := Testing, calling := false, executed := s.executed + s.batch, batch := [])
    decreases |s.batch|
  {
    if s.batch != [] {
      var s' := Step(s, RunNext);
      DrainRunsTheBatch(s');
      Prefixed(s, RunNext, Drain(|s'.batch|));
      assert s'.executed + s'.batch == s.executed + s.batch;
    } else {
      Prefixed(s, FinishBatch, []);
      assert [FinishBatch] + [] == Drain(0);
      assert s.executed + s.batch == s.executed;
    }
  }

  lemma SoloRoundRunsTheQueue(s: State)
    requires s.pc == Polling && s.counter > 0 && !s.posting
    ensures IsRun(s, SoloRound(s))
    ensures Final(s, SoloRound(s)) == s.(pc := Testing, calling := false, counter := 0,
                                        executed := s.executed + s.pending, batch := [], pending := [])
  {
    var s1 := Step(s, PollReturns(true));
    var s2 := Step(s1, HandleRead);
    var s3 := Step(s2, HandlersDone);
    var s4 := Step(s3, SetCalling);
    var s5 := Step(s4, SwapPending);
    var d := Drain(|s.pending|);
    DrainRunsTheBatch(s5);
    Prefixed(s4, SwapPending, d);
    Prefixed(s3, SetCalling, [SwapPending] + d);
    Prefixed(s2, HandlersDone, [SetCalling] + ([SwapPending] + d));
    Prefixed(s1, HandleRead, [HandlersDone] + ([SetCalling] + ([SwapPending] + d)));
    Prefixed(s, PollReturns(true), [HandleRead] + ([HandlersDone] + ([SetCalling] + ([SwapPending] + d))));
  }

  /** Progress: in any reachable state where the loop is blocked with work queued or a quit
      requested and no other thread is in the middle of a post, poll returns, and one undisturbed
      round runs everything ever pushed and then stops the loop exactly if a quit was requested. */
  lemma BlockedLoopMakesProgress(s: State, run: seq<Action>)
    requires Initial(s) && IsRun(s, run) && IsPromptRun(s, run)
    requires var e := Final(s, run); e.pc == Polling && (e.pending != [] || e.quit) && e.writers == {}
    ensures var e := Final(s, run);
            && IsRun(e, SoloRound(e))
            && var e' := Final(e, SoloRound(e));
               && e'.executed == e'.pushed == e.pushed
               && Enabled(e', TestQuit)
               && (Step(e', TestQuit).pc == Idle <==> e.quit)
  {
    RunKeepsInv(s, run);
    var e := Final(s, run);
    SoloRoundRunsTheQueue(e);
    assert e.executed + e.pending == e.executed + e.batch + e.pending;
  }

  // ----- the loop object

  /** `run` leads from `s` to `e`. */
  ghost predicate Leads(s: State, run: seq<Action>, e: State) {
    IsRun(s, run) && IsPromptRun(s, run) && Final(s, run) == e
  }

  lemma {:induction false} LeadsFurther(s: State, run: seq<Action>, e: State, a: Action)
    requires Leads(s, run, e) && Enabled(e, a) && Prompt(e, a)
    ensures Leads(s, run + [a], Step(e, a))
    decreases |run|
  {
    hide Enabled, Step, Prompt;
    if run == [] {
      assert run + [a] == [a] && [a][1..] == [];
      assert IsRun(Step(s, a), []) && IsPromptRun(Step(s, a), []) && Final(Step(s, a), []) == Step(s, a);
    } else {
      LeadsFurther(Step(s, run[0]), run[1..], e, a);
      assert (run + [a])[0] == run[0] && (run + [a])[1..] == run[1..] + [a];
    }
  }

  /** A call of queueInLoop, by the loop thread or by another one. */
  datatype Post = Post(thread: Option<ThreadId>, f: Functor)

  function FunctorsOf(posts: seq<Post>): seq<Functor> {
    seq(|posts|, i requires 0 <= i < |posts| => posts[i].f)
  }

  /** Everything posted while these functors run, in order. */
  function PostedBy(posts: Functor -> seq<Post>, fs: seq<Functor>): seq<Functor> {
    if fs == [] then [] else PostedBy(posts, fs[..|fs| - 1]) + FunctorsOf(posts(fs[|fs| - 1]))
  }

  /** The object itself. Its methods are those of the source; what other threads do in between is given
      by the posts. */
  class Loop {
    var pc: LoopPc
    var posting: bool
    var pendingFunctors: seq<Functor>
    var functors: seq<Functor>
    var callingPendingFunctors: bool
    var quit: bool
    var counter: nat
    ghost var writers: set<ThreadId>
    ghost var executed: seq<Functor>
    ghost var pushed: seq<Functor>

    ghost function View(): State
      reads this
    {
      State(pc, posting, pendingFunctors, functors, callingPendingFunctors, quit, counter, writers, executed, pushed)
    }

    /** `garbage` is what the uninitialised flag happens to hold. */
    constructor (garbage: bool)
      ensures Initial(View()) && Inv(View())
    {
      pc, posting, pendingFunctors, functors, callingPendingFunctors := Idle, false, [], [], garbage;
      quit, counter, writers, executed, pushed := false, 0, {}, [], [];
    }

    method WriteEventfd()
      modifies this`counter
      ensures counter == Bump(old(counter)) && counter > 0
    {
      if counter < EVENTFD_MAX {
        counter := counter + 1;
      }
    }

    /** queueInLoop. Unless the loop thread posts from an event handler, the eventfd is readable afterwards. */
    method QueueInLoop(p: Post) returns (ghost run: seq<Action>)
      requires Inv(View())
      requires if p.thread.None? then InUserCode(View()) && Prompt(View(), LoopPush(p.f)) else p.thread.value !in writers
      modifies this`pendingFunctors, this`pushed, this`posting, this`writers, this`counter
      ensures Inv(View()) && Leads(old(View()), run, View())
      ensures pendingFunctors == old(pendingFunctors) + [p.f] && posting == old(posting) && writers == old(writers)
      ensures p.thread.Some? || callingPendingFunctors || old(counter) > 0 ==> counter > 0
    {
      ghost var v := View();
      ghost var push := if p.thread.None? then LoopPush(p.f) else Push(p.thread.value, p.f);
      ghost var wake := if p.thread.None? then LoopWakeup else Wakeup(p.thread.value);
      assert Leads(v, [], v);
      StepKeepsInv(v, push);
      LeadsFurther(v, [], v, push);
      ghost var v' := Step(v, push);
      StepKeepsInv(v', wake);
      LeadsFurther(v, [] + [push], v', wake);
      run := [] + [push] + [wake];
      hide Inv, Leads;
      pendingFunctors, pushed := pendingFunctors + [p.f], pushed + [p.f];
      if p.thread.Some? || callingPendingFunctors {
        WriteEventfd();
      }
      assert p.thread.Some? ==> writers + {p.thread.value} - {p.thread.value} == writers;
      assert View() == Step(v', wake);
    }

    /** Everything that user code posts at one point, while other threads post too. */
    method PostAll(posts: seq<Post>) returns (ghost run: seq<Action>)
      requires Inv(View()) && (pc.Handling? || pc == Running(true)) && !posting
      requires forall i :: 0 <= i < |posts| ==> posts[i].thread.None? || posts[i].thread.value !in writers
      modifies this`pendingFunctors, this`pushed, this`posting, this`writers, this`counter
      ensures Inv(View()) && Leads(old(View()), run, View())
      ensures pendingFunctors == old(pendingFunctors) + FunctorsOf(posts) && !posting && writers == old(writers)
      ensures old(counter) > 0 || (callingPendingFunctors && posts != []) ==> counter > 0
    {
      run := [];
      hide Inv, Leads;
      assert Leads(View(), [], View()) by { LeadsNowhere(View()); }
      for i := 0 to |posts|
        invariant Inv(View()) && Leads(old(View()), run, View()) && !posting && writers == old(writers)
        invariant pendingFunctors == old(pendingFunctors) + FunctorsOf(posts[..i])
        invariant old(counter) > 0 || (callingPendingFunctors && i > 0) ==> counter > 0
      {
        ghost var v := View();
        ghost var more := QueueInLoop(posts[i]);
        LeadsJoin(old(View()), run, v, more, View());
        run := run + more;
        assert FunctorsOf(posts[..i + 1]) == FunctorsOf(posts[..i]) + [posts[i].f];
      }
      assert posts[..|posts|] == posts;
    }

    /** One functor of the batch runs, and posts what it posts. */
    method RunFunctor(posts: seq<Post>) returns (ghost run: seq<Action>)
      requires Inv(View()) && pc.Running? && !posting && functors != []
      requires forall i :: 0 <= i < |posts| ==> posts[i].thread.None? || posts[i].thread.value !in writers
      modifies this`pc, this`functors, this`executed, this`pendingFunctors, this`pushed, this`posting, this`writers, this`counter
      ensures Inv(View()) && Leads(old(View()), run, View()) && pc.Running? && !posting && writers == old(writers)
      ensures executed == old(executed) + [old(functors)[0]] && functors == old(functors)[1..]
      ensures pendingFunctors == old(pendingFunctors) + FunctorsOf(posts)
      ensures old(counter) > 0 || posts != [] ==> counter > 0
    {
      ghost var v := View();
      StepKeepsInv(v, RunNext);
      LeadsNowhere(v);
      LeadsFurther(v, [], v, RunNext);
      assert callingPendingFunctors;
      executed := executed + [functors[0]];
      pc, functors := Running(true), functors[1..];
      assert View() == Step(v, RunNext);
      hide Inv, Leads;
      ghost var v' := View();
      ghost var more := PostAll(posts);
      LeadsJoin(v, [] + [RunNext], v', more, View());
      run := [] + [RunNext] + more;
    }

    /** The loop over the batch. */
    method RunBatch(posts: Functor -> seq<Post>) returns (ghost run: seq<Action>)
      requires Inv(View()) && pc.Running? && !posting && pendingFunctors == []
      requires forall f, i :: 0 <= i < |posts(f)| ==> posts(f)[i].thread.None? || posts(f)[i].thread.value !in writers
      modifies this`pc, this`functors, this`executed, this`pendingFunctors, this`pushed, this`posting, this`writers, this`counter
      ensures Inv(View()) && Leads(old(View()), run, View()) && pc.Running? && !posting && writers == old(writers)
      ensures functors == [] && executed == old(executed) + old(functors)
      ensures pendingFunctors == PostedBy(posts, old(functors)) && (pendingFunctors != [] ==> counter > 0)
    {
      run := [];
      LeadsNowhere(View());
      ghost var all, i := functors, 0;
      assert PostedBy(posts, all[..0]) == [];
      hide Inv, Leads, PostedBy, FunctorsOf;
      while functors != []
        invariant Inv(View()) && Leads(old(View()), run, View()) && pc.Running? && !posting && writers == old(writers)
        invariant i <= |all| && functors == all[i..] && executed == old(executed) + all[..i]
        invariant pendingFunctors == PostedBy(posts, all[..i]) && (pendingFunctors != [] ==> counter > 0)
        decreases |functors|
      {
        ghost var v := View();
        NothingPosted(posts(all[i]));
        ghost var more := RunFunctor(posts(functors[0]));
        LeadsJoin(old(View()), run, v, more, View());
        OneMoreRun(posts, all, i, old(executed));
        run, i := run + more, i + 1;
      }
      assert all[..i] == all;
    }

    /** doPendingFunctors: exactly the functors queued when it is entered run, in order, and what they and other
        threads post meanwhile is queued, with a wakeup, for the next time. */
    method DoPendingFunctors(posts: Functor -> seq<Post>) returns (ghost run: seq<Action>)
      requires Inv(View()) && pc == Entering
      requires forall f, i :: 0 <= i < |posts(f)| ==> posts(f)[i].thread.None? || posts(f)[i].thread.value !in writers
      modifies this`pc, this`callingPendingFunctors, this`functors, this`executed, this`pendingFunctors, this`pushed,
               this`posting, this`writers, this`counter
      ensures Inv(View()) && Leads(old(View()), run, View())
      ensures pc == Testing && !posting && functors == [] && writers == old(writers)
      ensures executed == old(executed) + old(pendingFunctors)
      ensures pendingFunctors == PostedBy(posts, old(pendingFunctors)) && (pendingFunctors != [] ==> counter > 0)
    {
      run := BeginBatch();
      hide Inv, Leads, PostedBy;
      ghost var v := View();
      ghost var more := RunBatch(posts);
      LeadsJoin(old(View()), run, v, more, View());
      ghost var e := View();
      FinishKeepsInv(old(View()), run + more, e);
      pc, callingPendingFunctors := Testing, false;
      run := run + more + [FinishBatch];
      assert View() == Step(e, FinishBatch);
    }

    /** The flag is set, and the queue swapped out under the lock. */
    method BeginBatch() returns (ghost run: seq<Action>)
      requires Inv(View()) && pc == Entering
      modifies this`pc, this`callingPendingFunctors, this`functors, this`pendingFunctors
      ensures Inv(View()) && Leads(old(View()), run, View()) && pc.Running? && !posting
      ensures functors == old(pendingFunctors) && pendingFunctors == []
    {
      ghost var v := View();
      LeadsNowhere(v);
      StepKeepsInv(v, SetCalling);
      LeadsFurther(v, [], v, SetCalling);
      ghost var v' := Step(v, SetCalling);
      StepKeepsInv(v', SwapPending);
      LeadsFurther(v, [] + [SetCalling], v', SwapPending);
      run := [] + [SetCalling] + [SwapPending];
      callingPendingFunctors := true;
      functors, pendingFunctors := pendingFunctors, functors;
      pc := Running(false);
      assert View() == Step(v', SwapPending);
    }

    /** One round of loop(), from poll to the next test of the quit flag: whatever was queued before, whatever
        the event handlers post, and nothing else runs in it. */
    method Round(wakeup: bool, handlers: seq<Post>, posts: Functor -> seq<Post>) returns (ghost run: seq<Action>)
      requires Inv(View()) && pc == Polling && (wakeup ==> counter > 0)
      requires forall i :: 0 <= i < |handlers| ==> handlers[i].thread.None? || handlers[i].thread.value !in writers
      requires forall f, i :: 0 <= i < |posts(f)| ==> posts(f)[i].thread.None? || posts(f)[i].thread.value !in writers
      modifies this
      ensures Inv(View()) && Leads(old(View()), run, View())
      ensures pc == Testing && executed == old(executed) + (old(pendingFunctors) + FunctorsOf(handlers))
      ensures pendingFunctors == PostedBy(posts, old(pendingFunctors) + FunctorsOf(handlers))
      ensures pendingFunctors != [] ==> counter > 0
    {
      run := PollReturns(wakeup);
      hide Inv, Leads, PostedBy, FunctorsOf;
      ghost var v := View();
      ghost var more := PostAll(handlers);
      LeadsJoin(old(View()), run, v, more, View());
      run := run + more;
      v := View();
      HandlersDoneKeepsInv(old(View()), run, v);
      pc := Entering;
      run := run + [HandlersDone];
      assert View() == Step(v, HandlersDone);
      v := View();
      more := DoPendingFunctors(posts);
      LeadsJoin(old(View()), run, v, more, View());
      run := run + more;
    }

    /** poll returns, and handleRead reads the eventfd if it is readable. */
    method PollReturns(wakeup: bool) returns (ghost run: seq<Action>)
      requires Inv(View()) && pc == Polling && (wakeup ==> counter > 0)
      modifies this`pc, this`counter
      ensures Inv(View()) && Leads(old(View()), run, View()) && pc == Handling(false) && !posting
      ensures wakeup ==> counter == 0
    {
      ghost var v := View();
      LeadsNowhere(v);
      ghost var poll := Action.PollReturns(wakeup);
      StepKeepsInv(v, poll);
      LeadsFurther(v, [], v, poll);
      run := [] + [poll];
      if wakeup {
        ghost var v' := Step(v, poll);
        StepKeepsInv(v', HandleRead);
        LeadsFurther(v, run, v', HandleRead);
        run := run + [HandleRead];
        counter := 0;
      }
      pc := Handling(false);
    }

    /** quit, from the loop thread or another one, which wakes the loop. */
    method Quit(thread: Option<ThreadId>) returns (ghost run: seq<Action>)
      requires Inv(View()) && if thread.None? then InUserCode(View()) else thread.value !in writers
      modifies this`quit, this`counter, this`writers
      ensures Inv(View()) && Leads(old(View()), run, View()) && quit && writers == old(writers)
      ensures thread.Some? ==> counter > 0
    {
      ghost var v := View();
      LeadsNowhere(v);
      ghost var store := if thread.None? then LoopQuit else StoreQuit(thread.value);
      StepKeepsInv(v, store);
      LeadsFurther(v, [], v, store);
      run := [] + [store];
      quit := true;
      if thread.Some? {
        ghost var v' := Step(v, store);
        StepKeepsInv(v', Wakeup(thread.value));
        LeadsFurther(v, run, v', Wakeup(thread.value));
        run := run + [Wakeup(thread.value)];
        hide Inv, Leads;
        WriteEventfd();
        assert writers + {thread.value} - {thread.value} == writers;
        assert View() == Step(v', Wakeup(thread.value));
      }
    }
  }

  lemma NothingPosted(posts: seq<Post>)
    ensures posts == [] <==> FunctorsOf(posts) == []
  {
  }

  lemma OneMoreRun(posts: Functor -> seq<Post>, all: seq<Functor>, i: nat, before: seq<Functor>)
    requires i < |all|
    ensures all[i..][0] == all[i] && all[i..][1..] == all[i + 1..] && before + all[..i] + [all[i]] == before + all[..i + 1]
    ensures PostedBy(posts, all[..i + 1]) == PostedBy(posts, all[..i]) + FunctorsOf(posts(all[i]))
  {
    assert all[..i + 1][..i] == all[..i];
  }

  lemma HandlersDoneKeepsInv(s: State, run: seq<Action>, e: State)
    requires Leads(s, run, e) && Inv(e) && e.pc == Handling(false) && !e.posting
    ensures Leads(s, run + [HandlersDone], Step(e, HandlersDone)) && Inv(Step(e, HandlersDone))
  {
    StepKeepsInv(e, HandlersDone);
    LeadsFurther(s, run, e, HandlersDone);
  }

  lemma LeadsNowhere(s: State)
    ensures Leads(s, [], s)
  {
  }

  lemma FinishKeepsInv(s: State, run: seq<Action>, e: State)
    requires Leads(s, run, e) && Inv(e) && e.pc.Running? && !e.posting && e.batch == []
    ensures Leads(s, run + [FinishBatch], Step(e, FinishBatch)) && Inv(Step(e, FinishBatch))
  {
    StepKeepsInv(e, FinishBatch);
    LeadsFurther(s, run, e, FinishBatch);
  }

  lemma {:induction false} LeadsJoin(s: State, run: seq<Action>, m: State, more: seq<Action>, e: State)
    requires Leads(s, run, m) && Leads(m, more, e)
    ensures Leads(s, run + more, e)
    decreases |run|
  {
    hide Enabled, Step, Prompt;
    if run == [] {
      assert run + more == more;
    } else {
      LeadsJoin(Step(s, run[0]), run[1..], m, more, e);
      assert (run + more)[0] == run[0] && (run + more)[1..] == run[1..] + more;
    }
  }
}
