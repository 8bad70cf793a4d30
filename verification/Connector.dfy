/** The connector: a state machine that makes sockets, tries to connect them, hands over the one that
    succeeds, and closes the others, waiting longer after each failure. */
module Connector {
  import opened Wrappers

  /** Sockets are numbered in the order of their creation; the kernel may use a descriptor again. */
  type Socket = nat

  datatype Phase = Disconnected | Connecting | Connected

  /** What connect(2) says: wait for writability, try again later with a new socket, or give up. */
  datatype ConnectResult = InProgress | Refused | Fatal

  const INIT_RETRY_DELAY_MS: nat := 500
  const MAX_RETRY_DELAY_MS: nat := 30000

  /** `registered` says whether the channel is with the poller. `starts`, `stops` and `resets` count the
      calls of startInLoop, stopInLoop and resetChannel that wait in the loop or behind a timer; `waits`
      are the delays of the retries since the connector was made or restarted. */
  datatype State = State(connect: bool, phase: Phase, channel: Option<Socket>, registered: bool, delay: nat,
                         starts: nat, stops: nat, resets: nat,
                         created: nat, closed: multiset<Socket>, handed: multiset<Socket>, waits: seq<nat>)

  const INIT := State(false, Disconnected, None, false, INIT_RETRY_DELAY_MS, 0, 0, 0, 0, multiset{}, multiset{}, [])

  function Min(a: nat, b: nat): nat { if a < b then a else b }

  // ----- the steps

  function Retried(s: State, fd: Socket): State {
    var s := s.(closed := s.closed + multiset{fd}, phase := Disconnected);
    if !s.connect then s
    else s.(starts := s.starts + 1, waits := s.waits + [s.delay], delay := Min(s.delay * 2, MAX_RETRY_DELAY_MS))
  }

  /** Whether the assertions of startInLoop and connecting hold. */
  predicate CanStart(s: State, result: ConnectResult) {
    s.phase == Disconnected && (s.connect && result == InProgress ==> s.channel == None)
  }

  function Started(s: State, result: ConnectResult): State {
    if !s.connect then s
    else
      var fd := s.created;
      var s := s.(created := fd + 1);
      match result
      case InProgress => s.(phase := Connecting, channel := Some(fd), registered := true)
      case Refused => Retried(s, fd)
      case Fatal => s.(closed := s.closed + multiset{fd})
  }

  function Removed(s: State): State {
    s.(registered := false, resets := s.resets + 1)
  }

  predicate Holds(s: State, fd: Socket) { s.phase == Connecting && s.channel == Some(fd) }

  function Errored(s: State): State {
    if s.phase == Connecting && s.channel.Some? then Retried(Removed(s), s.channel.value) else s
  }

  function Written(s: State, failed: bool): State {
    if s.phase == Connecting && s.channel.Some? then
      var fd := s.channel.value;
      var s := Removed(s);
      if failed then Retried(s, fd)
      else if s.connect then s.(phase := Connected, handed := s.handed + multiset{fd})
      else s.(phase := Connected, closed := s.closed + multiset{fd})
    else s
  }

  function Stopped(s: State): State {
    if s.phase == Connecting && s.channel.Some?
    then Retried(Removed(s.(phase := Disconnected)), s.channel.value) else s
  }

  /** An event carries the readiness that poll reported; one dispatch may call both handlers, the one for
      errors first. `failed` stands for a pending socket error or a socket connected to itself. */
  datatype Action =
    | Start(inLoop: bool, result: ConnectResult)
    | RunStart(result: ConnectResult)
    | Stop
    | RunStop
    | Restart(result: ConnectResult)
    | RunReset
    | Event(error: bool, writable: bool, failed: bool)

  predicate Enabled(s: State, a: Action) {
    match a
    case Start(inLoop, result) => inLoop ==> CanStart(s.(connect := true), result)
    case RunStart(result) => s.starts > 0 && CanStart(s, result)
    case Stop => true
    case RunStop => s.stops > 0
    case Restart(result) => CanStart(s.(connect := true, phase := Disconnected), result)
    case RunReset => s.resets > 0
    case Event(_, _, _) => s.registered && s.channel.Some?
  }

  function Step(s: State, a: Action): State
    requires Enabled(s, a)
  {
    match a
    case Start(inLoop, result) =>
      var s := s.(connect := true);
      if inLoop then Started(s, result) else s.(starts := s.starts + 1)
    case RunStart(result) => Started(s.(starts := s.starts - 1), result)
    case Stop => s.(connect := false, stops := s.stops + 1)
    case RunStop => Stopped(s.(stops := s.stops - 1))
    case Restart(result) => Started(s.(connect := true, phase := Disconnected, delay := INIT_RETRY_DELAY_MS, waits := []), result)
    case RunReset => s.(channel := None, resets := s.resets - 1)
    case Event(error, writable, failed) =>
      var s := if error then Errored(s) else s;
      if writable then Written(s, failed) else s
  }

  predicate IsRun(s: State, run: seq<Action>)
    decreases |run|
  {
    run == [] || (Enabled(s, run[0]) && IsRun(Step(s, run[0]), run[1..]))
  }

  function Final(s: State, run: seq<Action>): State
    requires IsRun(s, run)
    decreases |run|
  {
    if run == [] then s else Final(Step(s, run[0]), run[1..])
  }

  // ----- what becomes of a socket

  /** A startInLoop scheduled behind the current delay, exactly if the connector has not been stopped. */
  predicate Reschedules(s: State, s': State) {
    && s'.waits == (if s.connect then s.waits + [s.delay] else s.waits)
    && s'.starts == (if s.connect then s.starts + 1 else s.starts)
  }

  /** An event on a socket that is being connected. If it is writable and nothing is wrong, the attempt has
      succeeded, and the socket is handed over exactly if the connector has not been stopped, and closed
      otherwise. If something is wrong, it is closed, nothing is handed over, and the next attempt is
      scheduled exactly if the connector has not been stopped. The channel leaves the poller either way. */
  lemma EventOutcome(run: seq<Action>, fd: Socket, error: bool, writable: bool, failed: bool)
    requires IsRun(INIT, run) && Holds(Final(INIT, run), fd) && Enabled(Final(INIT, run), Event(error, writable, failed))
    ensures var s := Final(INIT, run);
            var s' := Step(s, Event(error, writable, failed));
            && s'.connect == s.connect && s'.created == s.created
            && if error || (writable && failed) then
                 && s'.phase == Disconnected && Reschedules(s, s')
                 && s'.closed == s.closed + multiset{fd} && s'.handed == s.handed
                 && !s'.registered && s'.resets == s.resets + 1
               else if writable then
                 && s'.phase == Connected && s'.waits == s.waits && s'.starts == s.starts
                 && s'.handed == (if s.connect then s.handed + multiset{fd} else s.handed)
                 && s'.closed == (if s.connect then s.closed else s.closed + multiset{fd})
                 && !s'.registered && s'.resets == s.resets + 1
               else s' == s
  {
  }

  /** startInLoop, at once, queued, behind a timer, or from restart, which starts the schedule afresh. */
  lemma StartOutcome(s: State, a: Action)
    requires Enabled(s, a) && ((a.Start? && a.inLoop) || (a.RunStart? && s.connect) || a.Restart?)
    ensures var s' := Step(s, a);
            var fd, queued := s.created, if a.RunStart? then s.starts - 1 else s.starts;
            var waits, delay := if a.Restart? then [] else s.waits, if a.Restart? then 500 else s.delay;
            && s'.connect && s'.created == fd + 1 && s'.handed == s.handed
            && match a.result
               case InProgress =>
                 Holds(s', fd) && s'.registered && s'.closed == s.closed && s'.starts == queued && s'.waits == waits
               case Refused =>
                 && s'.phase == Disconnected && s'.closed == s.closed + multiset{fd}
                 && s'.starts == queued + 1 && s'.waits == waits + [delay]
               case Fatal =>
                 && s'.phase == Disconnected && s'.closed == s.closed + multiset{fd}
                 && s'.starts == queued && s'.waits == waits
  {
  }

  /** stop only takes back the wish to connect, and leaves the rest to stopInLoop, which closes the socket being
      connected; a queued startInLoop then does nothing. */
  lemma StopOutcome(s: State, fd: Socket, result: ConnectResult)
    ensures Step(s, Stop) == s.(connect := false, stops := s.stops + 1)
    ensures Enabled(s, RunStop) && Holds(s, fd) ==>
              var s' := Step(s, RunStop);
              && s'.phase == Disconnected && s'.closed == s.closed + multiset{fd} && s'.handed == s.handed
              && Reschedules(s, s') && !s'.registered && s'.resets == s.resets + 1 && s'.created == s.created
    ensures Enabled(s, RunStop) && s.phase != Connecting ==> Step(s, RunStop) == s.(stops := s.stops - 1)
    ensures Enabled(s, RunStart(result)) && !s.connect ==> Step(s, RunStart(result)) == s.(starts := s.starts - 1)
    ensures Step(s, Start(false, result)) == s.(connect := true, starts := s.starts + 1)
  {
  }

  // ----- conservation of sockets

  /** In how many places a socket is: held for a connection attempt, closed, handed over. */
  function Places(s: State, fd: Socket): nat {
    s.closed[fd] + s.handed[fd] + if Holds(s, fd) then 1 else 0
  }

  predicate InOnePlace(s: State, fd: Socket) { Places(s, fd) == if fd < s.created then 1 else 0 }

  ghost predicate Conserved(s: State) { forall fd {:trigger InOnePlace(s, fd)} :: InOnePlace(s, fd) }

  /** The channel is kept until its deferred reset, and is with the poller before that. */
  predicate Tidy(s: State) {
    && s.resets == (if s.channel.Some? && !s.registered then 1 else 0)
    && (s.registered ==> s.channel.Some? && s.phase != Connected)
    && (s.channel.Some? ==> s.channel.value < s.created)
    && (s.phase == Connecting ==> s.registered)
  }

  /** A channel that is with the poller while nothing is being connected: its socket is lost. */
  predicate Lost(s: State) { s.registered && s.phase == Disconnected }

  predicate Abandons(s: State, a: Action) { a.Restart? && s.phase == Connecting }

  predicate NeverAbandons(s: State, run: seq<Action>)
    requires IsRun(s, run)
    decreases |run|
  {
    run == [] || (!Abandons(s, run[0]) && NeverAbandons(Step(s, run[0]), run[1..]))
  }

  lemma StartIsTidy(s: State, result: ConnectResult)
    requires Tidy(s) && CanStart(s, result)
    ensures var s' := Started(s, result); Tidy(s') && (Lost(s') <==> Lost(s)) && (Lost(s) ==> s'.channel == s.channel)
  {
  }

  lemma EventIsTidy(s: State, failed: bool)
    requires Tidy(s)
    ensures Tidy(Errored(s)) && Tidy(Written(s, failed)) && Tidy(Stopped(s))
    ensures Lost(Errored(s)) == Lost(s) && Lost(Written(s, failed)) == Lost(s) && Lost(Stopped(s)) == Lost(s)
    ensures Errored(s).channel == Written(s, failed).channel == Stopped(s).channel == s.channel
  {
  }

  lemma StepIsTidy(s: State, a: Action)
    requires Tidy(s) && Enabled(s, a)
    ensures Tidy(Step(s, a)) && (Lost(Step(s, a)) <==> Lost(s) || Abandons(s, a))
    ensures Lost(s) ==> Step(s, a).channel == s.channel
  {
    match a
    case Start(inLoop, result) => if inLoop { StartIsTidy(s.(connect := true), result); }
    case RunStart(result) => StartIsTidy(s.(starts := s.starts - 1), result);
    case Restart(result) =>
      StartIsTidy(s.(connect := true, phase := Disconnected, delay := INIT_RETRY_DELAY_MS, waits := []), result);
    case RunStop => EventIsTidy(s.(stops := s.stops - 1), true);
    case Event(error, writable, failed) =>
      EventIsTidy(s, failed);
      EventIsTidy(Errored(s), failed);
    case _ =>
    hide Started, Errored, Written, Stopped;
  }

  lemma StartPlaces(s: State, result: ConnectResult, fd: Socket)
    requires CanStart(s, result)
    ensures InOnePlace(s, fd) ==> InOnePlace(Started(s, result), fd)
    ensures fd < s.created && Places(s, fd) == 0 ==> Places(Started(s, result), fd) == 0
  {
  }

  lemma EventPlaces(s: State, failed: bool, fd: Socket)
    requires InOnePlace(s, fd)
    ensures InOnePlace(Errored(s), fd) && InOnePlace(Written(s, failed), fd) && InOnePlace(Stopped(s), fd)
    ensures InOnePlace(Written(Errored(s), failed), fd)
  {
  }

  lemma StepPlaces(s: State, a: Action, fd: Socket)
    requires Tidy(s) && Enabled(s, a) && InOnePlace(s, fd) && !Lost(s)
    ensures Abandons(s, a) || InOnePlace(Step(s, a), fd)
    ensures Abandons(s, a) && s.channel == Some(fd) ==> Places(Step(s, a), fd) == 0
  {
    match a
    case Start(inLoop, result) => if inLoop { StartPlaces(s.(connect := true), result, fd); }
    case RunStart(result) => StartPlaces(s.(starts := s.starts - 1), result, fd);
    case Restart(result) => StartPlaces(s.(connect := true, phase := Disconnected, delay := INIT_RETRY_DELAY_MS, waits := []), result, fd);
    case RunStop => EventPlaces(s.(stops := s.stops - 1), true, fd);
    case Event(error, writable, failed) => EventPlaces(s, failed, fd);
    case _ =>
    hide Errored, Written, Stopped, Started;
  }

  lemma StepStaysLost(s: State, a: Action, fd: Socket)
    requires Tidy(s) && Enabled(s, a) && Lost(s) && s.channel == Some(fd) && Places(s, fd) == 0
    ensures Places(Step(s, a), fd) == 0
  {
  }

  /** Either every socket is in one place, or the lost one is in none. */
  ghost predicate Accounted(s: State) {
    Tidy(s) && if Lost(s) then Places(s, s.channel.value) == 0 else Conserved(s)
  }

  lemma StepIsAccounted(s: State, a: Action)
    requires Accounted(s) && Enabled(s, a)
    ensures Accounted(Step(s, a)) && (Lost(Step(s, a)) <==> Lost(s) || Abandons(s, a))
  {
    var s' := Step(s, a);
    StepIsTidy(s, a);
    if Lost(s) {
      StepStaysLost(s, a, s.channel.value);
      hide Step, Enabled, Places;
    } else {
      forall fd ensures InOnePlace(s, fd) && (Abandons(s, a) || InOnePlace(s', fd)) {
        StepPlaces(s, a, fd);
      }
      if Abandons(s, a) {
        StepPlaces(s, a, s.channel.value);
      }
    }
  }

  lemma {:induction false} RunIsAccounted(s: State, run: seq<Action>)
    requires Accounted(s) && IsRun(s, run)
    ensures Accounted(Final(s, run)) && (Lost(Final(s, run)) <==> Lost(s) || !NeverAbandons(s, run))
    decreases |run|
  {
    if run != [] {
      StepIsAccounted(s, run[0]);
      RunIsAccounted(Step(s, run[0]), run[1..]);
    }
    hide Accounted, Step, Enabled, Lost, Abandons;
  }

  /** Every socket ever made is held for the current attempt, closed once or handed over once, and in one
      of these places only, exactly if the connector was never restarted while connecting. */
  lemma SocketsAreConserved(run: seq<Action>)
    requires IsRun(INIT, run)
    ensures Conserved(Final(INIT, run)) <==> NeverAbandons(INIT, run)
  {
    var s := Final(INIT, run);
    assert Conserved(INIT);
    RunIsAccounted(INIT, run);
    if Lost(s) {
      assert !InOnePlace(s, s.channel.value);
    }
  }

  /** A restart while connecting does lose the socket: it is neither closed nor handed over nor held. */
  lemma RestartLosesASocket()
    ensures var run := [Start(true, InProgress), Restart(Refused)];
            IsRun(INIT, run) && !Conserved(Final(INIT, run)) && Places(Final(INIT, run), 0) == 0
  {
    var run := [Start(true, InProgress), Restart(Refused)];
    var s1 := Step(INIT, run[0]);
    var s2 := Step(s1, run[1]);
    assert run[1..] == [run[1]] && run[1..][1..] == [];
    assert !InOnePlace(s2, 0);
  }

  /** After stop, and until the next start or restart, no socket is made and none is handed over. */
  lemma {:induction false} StopIsFinal(s: State, run: seq<Action>)
    requires !s.connect && IsRun(s, run) && forall a :: a in run ==> !a.Start? && !a.Restart?
    ensures var s' := Final(s, run); !s'.connect && s'.created == s.created && s'.handed == s.handed && s'.waits == s.waits
    decreases |run|
  {
    if run != [] {
      assert run[0] in run && forall a :: a in run[1..] ==> a in run;
      StopIsFinal(Step(s, run[0]), run[1..]);
    }
  }

  // ----- backoff

  function Pow2(k: nat): nat { if k == 0 then 1 else 2 * Pow2(k - 1) }

  function Backoff(k: nat): nat { Min(INIT_RETRY_DELAY_MS * Pow2(k), MAX_RETRY_DELAY_MS) }

  predicate IsBackoff(delay: nat, waits: seq<nat>) {
    delay == Backoff(|waits|) && forall k :: 0 <= k < |waits| ==> waits[k] == Backoff(k)
  }

  predicate BacksOff(s: State) { IsBackoff(s.delay, s.waits) }

  lemma RetryBacksOff(s: State, fd: Socket)
    requires BacksOff(s)
    ensures BacksOff(Retried(s, fd))
  {
  }

  lemma StartBacksOff(s: State, result: ConnectResult)
    requires BacksOff(s)
    ensures BacksOff(Started(s, result))
  {
    hide IsBackoff, Retried;
    RetryBacksOff(s.(created := s.created + 1), s.created);
  }

  lemma EventBacksOff(s: State, failed: bool)
    requires BacksOff(s)
    ensures BacksOff(Errored(s)) && BacksOff(Written(s, failed)) && BacksOff(Stopped(s))
  {
    hide IsBackoff, Retried;
    if s.channel.Some? {
      RetryBacksOff(Removed(s), s.channel.value);
      RetryBacksOff(Removed(s.(phase := Disconnected)), s.channel.value);
    }
  }

  lemma StepBacksOff(s: State, a: Action)
    requires BacksOff(s) && Enabled(s, a)
    ensures BacksOff(Step(s, a))
  {
    assert IsBackoff(INIT_RETRY_DELAY_MS, []);
    hide IsBackoff, Started, Errored, Written, Stopped;
    match a
    case Start(inLoop, result) => StartBacksOff(s.(connect := true), result);
    case RunStart(result) => StartBacksOff(s.(starts := s.starts - 1), result);
    case Restart(result) => StartBacksOff(s.(connect := true, phase := Disconnected, delay := INIT_RETRY_DELAY_MS, waits := []), result);
    case RunStop => EventBacksOff(s.(stops := s.stops - 1), true);
    case Event(error, writable, failed) =>
      EventBacksOff(s, failed);
      EventBacksOff(Errored(s), failed);
    case _ =>
  }

  lemma {:induction false} RunBacksOff(s: State, run: seq<Action>)
    requires BacksOff(s) && IsRun(s, run)
    ensures BacksOff(Final(s, run))
    decreases |run|
  {
    if run != [] {
      StepBacksOff(s, run[0]);
      RunBacksOff(Step(s, run[0]), run[1..]);
    }
    hide BacksOff, Step, Enabled;
  }

  /** The k-th retry since the connector was made or last restarted waits min(500 * 2^k, 30000) ms. */
  lemma RetriesBackOff(run: seq<Action>, k: nat)
    requires IsRun(INIT, run) && k < |Final(INIT, run).waits|
    ensures Final(INIT, run).waits[k] == Min(500 * Pow2(k), 30000)
  {
    RunBacksOff(INIT, run);
  }

  // ----- the object

  class Connector {
    var connect: bool
    var phase: Phase
    var channel: Option<Socket>
    var retryDelayMs: nat
    var starts: nat                   // queued in the loop or behind a timer
    var stops: nat
    var resets: nat
    ghost var registered: bool
    var created: nat
    ghost var closed: multiset<Socket>
    ghost var handed: multiset<Socket>
    ghost var waits: seq<nat>

    ghost function Abs(): State
      reads this
    {
      State(connect, phase, channel, registered, retryDelayMs, starts, stops, resets, created, closed, handed, waits)
    }

    /** What holds in every reachable state. */
    ghost predicate Valid()
      reads this
    {
      Tidy(Abs()) && BacksOff(Abs())
    }

    constructor ()
      ensures Valid() && Abs() == INIT
    {
      connect, phase, channel, registered, retryDelayMs := false, Disconnected, None, false, INIT_RETRY_DELAY_MS;
      starts, stops, resets, created, closed, handed, waits := 0, 0, 0, 0, multiset{}, multiset{}, [];
    }

    /** Closes the socket, and tries again later unless stopped. */
    method Retry(fd: Socket)
      modifies this
      ensures Abs() == Retried(old(Abs()), fd)
    {
      closed := closed + multiset{fd};
      phase := Disconnected;
      if connect {
        starts := starts + 1;
        waits := waits + [retryDelayMs];
        retryDelayMs := Min(retryDelayMs * 2, MAX_RETRY_DELAY_MS);
      }
    }

    /** startInLoop and connect, whose assertions are the precondition. */
    method StartInLoop(result: ConnectResult)
      requires CanStart(Abs(), result)
      modifies this
      ensures Abs() == Started(old(Abs()), result)
    {
      hide Retried;
      if connect {
        var fd := created;
        created := created + 1;
        match result {
          case InProgress => phase, channel, registered := Connecting, Some(fd), true;
          case Refused => Retry(fd);
          case Fatal => closed := closed + multiset{fd};
        }
      }
    }

    method RemoveAndResetChannel() returns (fd: Socket)
      requires channel.Some?
      modifies this
      ensures Abs() == Removed(old(Abs())) && channel == Some(fd)
    {
      registered := false;
      resets := resets + 1;
      fd := channel.value;
    }

    method HandleWrite(failed: bool)
      requires phase == Connecting ==> channel.Some?
      modifies this
      ensures Abs() == Written(old(Abs()), failed)
    {
      if phase == Connecting {
        var fd := RemoveAndResetChannel();
        if failed {
          Retry(fd);
        } else {
          phase := Connected;
          if connect {
            handed := handed + multiset{fd};
          } else {
            closed := closed + multiset{fd};
          }
        }
      }
    }

    method HandleError()
      requires phase == Connecting ==> channel.Some?
      modifies this
      ensures Abs() == Errored(old(Abs()))
    {
      if phase == Connecting {
        var fd := RemoveAndResetChannel();
        Retry(fd);
      }
    }

    lemma Keeps(a: Action)
      requires Valid() && Enabled(Abs(), a)
      ensures Tidy(Step(Abs(), a)) && BacksOff(Step(Abs(), a))
    {
      StepIsTidy(Abs(), a);
      StepBacksOff(Abs(), a);
    }

    /** Channel::handleEventWithGuard: the error callback comes before the write callback. In the second,
        an event that finds nothing being connected must find the connector disconnected. */
    method HandleEvent(error: bool, writable: bool, failed: bool)
      requires Valid() && Enabled(Abs(), Event(error, writable, failed))
      modifies this
      ensures Valid() && Abs() == Step(old(Abs()), Event(error, writable, failed))
    {
      Keeps(Event(error, writable, failed));
      if error {
        HandleError();
      }
      hide BacksOff, Tidy;
      if writable {
        assert phase == Connecting || phase == Disconnected;
        HandleWrite(failed);
      }
    }

    method Start(inLoop: bool, result: ConnectResult)
      requires Valid() && Enabled(Abs(), Action.Start(inLoop, result))
      modifies this
      ensures Valid() && Abs() == Step(old(Abs()), Action.Start(inLoop, result))
    {
      Keeps(Action.Start(inLoop, result));
      hide BacksOff, Tidy;
      connect := true;
      if inLoop {
        StartInLoop(result);
      } else {
        starts := starts + 1;
      }
    }

    /** A queued or delayed startInLoop. */
    method RunStart(result: ConnectResult)
      requires Valid() && Enabled(Abs(), Action.RunStart(result))
      modifies this
      ensures Valid() && Abs() == Step(old(Abs()), Action.RunStart(result))
    {
      Keeps(Action.RunStart(result));
      hide BacksOff, Tidy;
      starts := starts - 1;
      StartInLoop(result);
    }

    method Stop()
      requires Valid()
      modifies this
      ensures Valid() && Abs() == Step(old(Abs()), Action.Stop)
    {
      connect := false;
      stops := stops + 1;
    }

    method StopInLoop()
      requires Valid() && stops > 0
      modifies this
      ensures Valid() && Abs() == Step(old(Abs()), RunStop)
    {
      Keeps(RunStop);
      stops := stops - 1;
      if phase == Connecting {
        phase := Disconnected;
        hide BacksOff, Tidy;
        var fd := RemoveAndResetChannel();
        Retry(fd);
      }
    }

    method Restart(result: ConnectResult)
      requires Valid() && Enabled(Abs(), Action.Restart(result))
      modifies this
      ensures Valid() && Abs() == Step(old(Abs()), Action.Restart(result))
    {
      Keeps(Action.Restart(result));
      hide BacksOff, Tidy;
      phase := Disconnected;
      retryDelayMs, waits := INIT_RETRY_DELAY_MS, [];
      connect := true;
      StartInLoop(result);
    }

    method ResetChannel()
      requires Valid() && resets > 0
      modifies this
      ensures Valid() && Abs() == Step(old(Abs()), RunReset)
    {
      channel, resets := None, resets - 1;
    }
  }
}
