/** The output side of a connection: payloads go to the kernel or wait in the output buffer, write
    interest follows the buffer, and closing happens in several steps. */
module TcpConnection {
  import opened Bytes

  datatype Phase = Connecting | Connected | Disconnecting | Disconnected

  /** What write(2) says. Only EPIPE and ECONNRESET are faults; other errors buffer the payload. */
  datatype WriteResult = Wrote(n: nat) | Failed(fault: bool)

  /** Two lines of the source are not what they are meant to be: handleWrite retrieves nothing from the
      buffer, and forceClose looks for kDisconnected instead of kDisconnecting. */
  datatype Code = Code(drains: bool, forcesDisconnecting: bool)

  const AS_WRITTEN := Code(false, false)
  const INTENDED := Code(true, true)

  /** What waits in the loop. */
  datatype Functor = SendIt(data: Text) | ShutdownIt | ForceIt

  /** `offered` holds the payloads that reached sendInLoop, `accepted` the bytes that the kernel took, and
      `downs` counts the calls of the connection callback with the connection down. Functors are posted to
      `pending`; the loop swaps them out into `batch` and runs all of it before it looks at events again. */
  datatype State = State(phase: Phase, reading: bool, writing: bool, output: Text,
                         accepted: Text, offered: Text, downs: nat,
                         batch: seq<Functor>, pending: seq<Functor>)

  const INIT := State(Connecting, false, false, [], [], [], 0, [], [])

  /** Swap and RunFunctor are the loop's doPendingFunctors: it takes a batch, and runs the first functor
      of the batch. */
  datatype Action =
    | ConnectEstablished
    | Send(inLoop: bool, data: Text, result: WriteResult)
    | Swap
    | RunFunctor(result: WriteResult)
    | HandleWrite(result: WriteResult)
    | Shutdown(inLoop: bool)
    | ForceClose
    | HandleClose
    | ConnectDestroyed

  predicate Fits(result: WriteResult, data: Text) { result.Wrote? ==> result.n <= |data| }

  /** sendInLoop writes directly if nothing is waiting. */
  predicate WritesDirectly(s: State) { s.phase != Disconnected && !s.writing && s.output == [] }

  /** The payload that a step brings to sendInLoop. */
  function Payload(s: State, a: Action): Text {
    if a.Send? && a.inLoop && s.phase == Connected then a.data
    else if a.RunFunctor? && s.batch != [] && s.batch[0].SendIt? then s.batch[0].data
    else []
  }

  /** The kernel's answer is possible, the assertions of the source hold, and events are handled between
      batches only. */
  predicate Enabled(s: State, a: Action) {
    match a
    case ConnectEstablished => s.phase == Connecting
    case Send(_, _, result) => Fits(result, Payload(s, a))
    case Swap => s.batch == []
    case RunFunctor(result) => s.batch != [] && Fits(result, Payload(s, a))
    case HandleWrite(result) => s.batch == [] && Fits(result, s.output)
    case HandleClose => s.batch == [] && (s.phase == Connected || s.phase == Disconnecting)
    case ConnectDestroyed => s.phase == Connected || (!s.reading && !s.writing)
    case _ => true
  }

  /** handleClose, and the half of connectDestroyed that does the same. */
  function Closed(s: State): State {
    s.(phase := Disconnected, reading := false, writing := false, downs := s.downs + 1)
  }

  function Sent(s: State, data: Text, result: WriteResult): State
    requires Fits(result, data)
  {
    var s := s.(offered := s.offered + data);
    if s.phase == Disconnected || (WritesDirectly(s) && result == Failed(true)) then s
    else
      var n := if WritesDirectly(s) && result.Wrote? then result.n else 0;
      if n == |data| then s.(accepted := s.accepted + data)
      else s.(accepted := s.accepted + data[..n], output := s.output + data[n..], writing := true)
  }

  function Written(code: Code, s: State, result: WriteResult): State
    requires Fits(result, s.output)
  {
    if s.writing && result.Wrote? && result.n > 0 then
      var rest := s.output[if code.drains then result.n else 0..];
      s.(accepted := s.accepted + s.output[..result.n], output := rest, writing := rest != [])
    else s
  }

  function Posted(s: State, f: Functor): State { s.(pending := s.pending + [f]) }

  function Step(code: Code, s: State, a: Action): State
    requires Enabled(s, a)
  {
    match a
    case ConnectEstablished => s.(phase := Connected, reading := true)
    case Send(inLoop, data, result) =>
      if s.phase != Connected then s else if inLoop then Sent(s, data, result) else Posted(s, SendIt(CStr(data)))
    case Swap => s.(batch := s.pending, pending := [])
    case RunFunctor(result) =>
      var f, s := s.batch[0], s.(batch := s.batch[1..]);
      (match f
       case SendIt(data) => Sent(s, data, result)
       case ShutdownIt => s
       case ForceIt => if s.phase == Connected || s.phase == Disconnecting then Closed(s) else s)
    case HandleWrite(result) => Written(code, s, result)
    case Shutdown(inLoop) =>
      if s.phase != Connected then s
      else if inLoop then s.(phase := Disconnecting)
      else Posted(s.(phase := Disconnecting), ShutdownIt)
    case ForceClose =>
      if s.phase == Connected || s.phase == (if code.forcesDisconnecting then Disconnecting else Disconnected)
      then Posted(s.(phase := Disconnecting), ForceIt)
      else s
    case HandleClose => Closed(s)
    case ConnectDestroyed => if s.phase == Connected then Closed(s) else s
  }

  /** Whether a step calls shutdownWrite. */
  predicate ShutsWrite(code: Code, s: State, a: Action)
    requires Enabled(s, a)
  {
    match a
    case Shutdown(inLoop) => s.phase == Connected && inLoop && !s.writing
    case RunFunctor(_) => s.batch[0] == ShutdownIt && !s.writing
    case HandleWrite(result) => s.writing && !Written(code, s, result).writing && s.phase == Disconnecting
    case _ => false
  }

  predicate IsRun(code: Code, s: State, run: seq<Action>)
    decreases |run|
  {
    run == [] || (Enabled(s, run[0]) && IsRun(code, Step(code, s, run[0]), run[1..]))
  }

  function Final(code: Code, s: State, run: seq<Action>): State
    requires IsRun(code, s, run)
    decreases |run|
  {
    if run == [] then s else Final(code, Step(code, s, run[0]), run[1..])
  }

  // ----- what can go wrong

  /** Drop: a payload is given up, because the connection is down or write reported a fault.
      Repeat: bytes that the kernel took stay in the buffer, to be written again.
      Revive: forceClose brings a connection back that is already down. */
  datatype Mishap = Drop | Repeat | Revive

  predicate Happens(code: Code, s: State, a: Action, m: Mishap) {
    match m
    case Drop =>
      (a.Send? || a.RunFunctor?) && Payload(s, a) != [] && (s.phase == Disconnected || (WritesDirectly(s) && a.result == Failed(true)))
    case Repeat => a.HandleWrite? && s.writing && a.result.Wrote? && a.result.n > 0 && !code.drains
    case Revive => a.ForceClose? && s.phase == Disconnected && !code.forcesDisconnecting
  }

  predicate Never(code: Code, s: State, run: seq<Action>, m: Mishap)
    requires IsRun(code, s, run)
    decreases |run|
  {
    run == [] || (!Happens(code, s, run[0], m) && Never(code, Step(code, s, run[0]), run[1..], m))
  }

  lemma Prefixed(code: Code, s: State, a: Action, rest: seq<Action>)
    requires Enabled(s, a) && IsRun(code, Step(code, s, a), rest)
    ensures IsRun(code, s, [a] + rest) && Final(code, s, [a] + rest) == Final(code, Step(code, s, a), rest)
    ensures forall m :: Never(code, s, [a] + rest, m) <==> !Happens(code, s, a, m) && Never(code, Step(code, s, a), rest, m)
  {
    assert ([a] + rest)[1..] == rest;
  }

  // ----- conservation of the stream

  predicate Conserved(s: State) { s.accepted + s.output == s.offered }

  function Excess(s: State): int { |s.accepted| + |s.output| - |s.offered| }

  lemma SendExcess(s: State, data: Text, result: WriteResult)
    requires Fits(result, data)
    ensures var s' := Sent(s, data, result);
            if data != [] && (s.phase == Disconnected || (WritesDirectly(s) && result == Failed(true)))
            then Excess(s') < Excess(s)
            else Excess(s') == Excess(s) && (Conserved(s) ==> Conserved(s'))
  {
    var n := if WritesDirectly(s) && result.Wrote? then result.n else 0;
    SplitPayload(s.accepted, s.output, data, n);
  }

  lemma SplitPayload(accepted: Text, output: Text, data: Text, n: nat)
    requires n <= |data| && (n > 0 ==> output == [])
    ensures (accepted + data[..n]) + (output + data[n..]) == accepted + output + data
    ensures n == |data| ==> (accepted + data) + output == accepted + output + data
  {
  }

  lemma WriteExcess(code: Code, s: State, result: WriteResult)
    requires Fits(result, s.output)
    ensures var s' := Written(code, s, result);
            if Happens(code, s, HandleWrite(result), Repeat) then Excess(s') > Excess(s)
            else Excess(s') == Excess(s) && (Conserved(s) ==> Conserved(s'))
  {
    if s.writing && result.Wrote? {
      assert s.output == s.output[..result.n] + s.output[result.n..];
    }
  }

  lemma StepExcess(code: Code, s: State, a: Action)
    requires Enabled(s, a)
    ensures var s' := Step(code, s, a);
            if Happens(code, s, a, Drop) then Excess(s') < Excess(s)
            else if Happens(code, s, a, Repeat) then Excess(s') > Excess(s)
            else Excess(s') == Excess(s) && (Conserved(s) ==> Conserved(s'))
  {
    match a
    case Send(_, data, result) => if Payload(s, a) == data { SendExcess(s, data, result); }
    case RunFunctor(result) =>
      if s.batch[0].SendIt? { SendExcess(s.(batch := s.batch[1..]), s.batch[0].data, result); }
    case HandleWrite(result) => WriteExcess(code, s, result);
    case _ =>
    hide Sent, Written;
  }

  lemma {:induction false} RunExcess(code: Code, s: State, run: seq<Action>)
    requires IsRun(code, s, run)
    ensures var s', drops, repeats := Final(code, s, run), !Never(code, s, run, Drop), !Never(code, s, run, Repeat);
            && (!repeats ==> if drops then Excess(s') < Excess(s) else Excess(s') == Excess(s))
            && (!drops && repeats ==> Excess(s') > Excess(s))
            && (!drops && !repeats && Conserved(s) ==> Conserved(s'))
            && (code.drains ==> !repeats)
    decreases |run|
  {
    if run != [] {
      assert code.drains ==> !Happens(code, s, run[0], Repeat);
      assert !(Happens(code, s, run[0], Drop) && Happens(code, s, run[0], Repeat));
      StepExcess(code, s, run[0]);
      RunExcess(code, Step(code, s, run[0]), run[1..]);
    }
    hide Step, Excess, Conserved, Enabled, Happens;
  }

  // ----- what the history fields mean

  /** What the run brings to sendInLoop, in order. */
  function Payloads(code: Code, s: State, run: seq<Action>): Text
    requires IsRun(code, s, run)
    decreases |run|
  {
    if run == [] then [] else Payload(s, run[0]) + Payloads(code, Step(code, s, run[0]), run[1..])
  }

  lemma StepOffers(code: Code, s: State, a: Action)
    requires Enabled(s, a)
    ensures Step(code, s, a).offered == s.offered + Payload(s, a)
  {
    assert s.offered + [] == s.offered;
  }

  /** `offered` is everything that reached sendInLoop, whatever became of it. */
  lemma {:induction false} OfferedIsPayloads(code: Code, s: State, run: seq<Action>)
    requires IsRun(code, s, run)
    ensures Final(code, s, run).offered == s.offered + Payloads(code, s, run)
    decreases |run|
  {
    if run == [] {
      assert s.offered + [] == s.offered;
    } else {
      var s' := Step(code, s, run[0]);
      StepOffers(code, s, run[0]);
      OfferedIsPayloads(code, s', run[1..]);
      hide Step, Payload, Enabled;
      assert s.offered + Payload(s, run[0]) + Payloads(code, s', run[1..]) == s.offered + Payloads(code, s, run);
    }
  }

  /** How many bytes write(2) reports to have taken in a step. sendInLoop calls it if the connection is not down,
      write interest is off and the buffer is empty, handleWrite if write interest is on. */
  function Taken(s: State, a: Action): nat {
    var n := if (a.Send? || a.RunFunctor? || a.HandleWrite?) && a.result.Wrote? then a.result.n else 0;
    if a.HandleWrite? then (if s.writing then n else 0)
    else if Payload(s, a) != [] && s.phase != Disconnected && !s.writing && s.output == [] then n
    else 0
  }

  lemma StepTakes(code: Code, s: State, a: Action)
    requires Enabled(s, a)
    ensures s.accepted <= Step(code, s, a).accepted
    ensures |Step(code, s, a).accepted| == |s.accepted| + Taken(s, a)
  {
    match a
    case Send(_, data, result) => if Payload(s, a) == data && s.phase == Connected && a.inLoop { SentTakes(s, data, result); }
    case RunFunctor(result) =>
      if s.batch[0].SendIt? { SentTakes(s.(batch := s.batch[1..]), s.batch[0].data, result); }
    case HandleWrite(result) =>
    case _ =>
    hide Sent;
  }

  lemma SentTakes(s: State, data: Text, result: WriteResult)
    requires Fits(result, data)
    ensures var s' := Sent(s, data, result);
            && s.accepted <= s'.accepted
            && |s'.accepted| == |s.accepted| +
                 if s.phase != Disconnected && !s.writing && s.output == [] && result.Wrote? then result.n else 0
  {
  }

  function TakenIn(code: Code, s: State, run: seq<Action>): nat
    requires IsRun(code, s, run)
    decreases |run|
  {
    if run == [] then 0 else Taken(s, run[0]) + TakenIn(code, Step(code, s, run[0]), run[1..])
  }

  /** `accepted` grows by exactly the bytes that write(2) reports. */
  lemma {:induction false} AcceptedIsTaken(code: Code, s: State, run: seq<Action>)
    requires IsRun(code, s, run)
    ensures s.accepted <= Final(code, s, run).accepted && |Final(code, s, run).accepted| == |s.accepted| + TakenIn(code, s, run)
    decreases |run|
  {
    if run != [] {
      StepTakes(code, s, run[0]);
      AcceptedIsTaken(code, Step(code, s, run[0]), run[1..]);
    }
    hide Step, Taken, Enabled;
  }

  /** With the buffer drained, under any schedule of partial writes, the bytes that the kernel took, as many as
      write(2) reported, followed by what is buffered are the payloads that reached sendInLoop, in order,
      exactly if no payload was given up. */
  lemma StreamIsConserved(code: Code, run: seq<Action>)
    requires code.drains && IsRun(code, INIT, run)
    ensures var s := Final(code, INIT, run);
            && (s.accepted + s.output == Payloads(code, INIT, run) <==> Never(code, INIT, run, Drop))
            && |s.accepted| == TakenIn(code, INIT, run)
  {
    RunExcess(code, INIT, run);
    OfferedIsPayloads(code, INIT, run);
    AcceptedIsTaken(code, INIT, run);
  }

  /** As written, the stream survives exactly if handleWrite never gets a byte through. */
  lemma StreamIsConservedAsWritten(code: Code, run: seq<Action>)
    requires !code.drains && IsRun(code, INIT, run) && Never(code, INIT, run, Drop)
    ensures var s := Final(code, INIT, run);
            && (s.accepted + s.output == Payloads(code, INIT, run) <==> Never(code, INIT, run, Repeat))
            && |s.accepted| == TakenIn(code, INIT, run)
  {
    RunExcess(code, INIT, run);
    OfferedIsPayloads(code, INIT, run);
    AcceptedIsTaken(code, INIT, run);
  }

  /** It does not survive a payload that is written in two parts. */
  lemma RepeatsAByte()
    ensures var run := [ConnectEstablished, Send(true, ['a', 'b'], Wrote(1)), HandleWrite(Wrote(1))];
            && IsRun(AS_WRITTEN, INIT, run) && Never(AS_WRITTEN, INIT, run, Drop)
            && !Conserved(Final(AS_WRITTEN, INIT, run)) && Final(AS_WRITTEN, INIT, run).accepted == ['a', 'b']
            && Final(AS_WRITTEN, INIT, run).output == ['b']
  {
    var up := INIT.(phase := Connected, reading := true);
    var half := up.(writing := true, output := ['b'], accepted := ['a'], offered := ['a', 'b']);
    assert Step(AS_WRITTEN, INIT, ConnectEstablished) == up;
    var send, write := Send(true, ['a', 'b'], Wrote(1)), HandleWrite(Wrote(1));
    assert Step(AS_WRITTEN, up, send) == half;
    assert Step(AS_WRITTEN, half, write) == half.(accepted := ['a', 'b']);
    hide Step;
    Prefixed(AS_WRITTEN, half, write, []);
    Prefixed(AS_WRITTEN, up, send, [write] + []);
    Prefixed(AS_WRITTEN, INIT, ConnectEstablished, [send] + ([write] + []));
    assert [ConnectEstablished] + ([send] + ([write] + [])) == [ConnectEstablished, send, write];
  }

  lemma StepKeepsOutput(code: Code, s: State, a: Action)
    requires !code.drains && Enabled(s, a)
    ensures s.output <= Step(code, s, a).output
  {
  }

  /** As written, a buffer that was ever needed is never emptied. */
  lemma {:induction false} BufferNeverEmpties(code: Code, s: State, run: seq<Action>)
    requires !code.drains && IsRun(code, s, run)
    ensures s.output <= Final(code, s, run).output
    decreases |run|
  {
    if run != [] {
      StepKeepsOutput(code, s, run[0]);
      BufferNeverEmpties(code, Step(code, s, run[0]), run[1..]);
    }
    hide Step, Enabled;
  }

  // ----- write interest and closing

  /** Until the connection goes down, interest follows the buffer. */
  ghost predicate Inv(s: State) {
    && (s.downs == 0 ==> (s.writing <==> s.output != []) && s.phase != Disconnected)
    && (s.phase == Connecting || s.phase == Connected ==> s.downs == 0)
    && (s.writing ==> s.output != [] && s.phase != Disconnected)
  }

  /** Going down is final. */
  ghost predicate DownOnce(s: State) {
    s.downs <= 1 && (s.phase == Disconnected <==> s.downs == 1)
  }

  /** A revived connection goes down again, at the latest when the functor that forceClose queued runs. */
  ghost predicate DownAgain(s: State) {
    s.downs >= 2 || (s.downs == 1 && s.phase == Disconnecting && (ForceIt in s.batch || ForceIt in s.pending))
  }

  /** What sendInLoop and handleWrite leave alone. */
  lemma SentFrame(s: State, data: Text, result: WriteResult)
    requires Fits(result, data)
    ensures var s' := Sent(s, data, result);
            && s'.phase == s.phase && s'.downs == s.downs && s'.batch == s.batch && s'.pending == s.pending
            && (data == [] ==> s'.writing == s.writing && s'.output == s.output)
  {
  }

  lemma WrittenFrame(code: Code, s: State, result: WriteResult)
    requires Fits(result, s.output)
    ensures var s' := Written(code, s, result);
            && s'.phase == s.phase && s'.downs == s.downs && s'.batch == s.batch && s'.pending == s.pending
            && (!s.writing ==> s' == s)
  {
  }

  lemma SentKeepsInv(s: State, data: Text, result: WriteResult)
    requires Inv(s) && Fits(result, data)
    ensures Inv(Sent(s, data, result))
  {
  }

  lemma StepFrame(code: Code, s: State, a: Action)
    requires Enabled(s, a)
    ensures a.Send? && a.inLoop && s.phase == Connected ==> var s' := Sent(s, a.data, a.result);
              s'.phase == s.phase && s'.downs == s.downs && s'.batch == s.batch && s'.pending == s.pending
    ensures a.RunFunctor? && s.batch[0].SendIt? ==>
              var r := s.(batch := s.batch[1..]);
              var s' := Sent(r, s.batch[0].data, a.result);
              && s'.phase == r.phase && s'.downs == r.downs && s'.batch == r.batch && s'.pending == r.pending
              && (s.batch[0].data == [] ==> s'.writing == s.writing && s'.output == s.output)
    ensures a.HandleWrite? ==> var s' := Written(code, s, a.result);
              && s'.phase == s.phase && s'.downs == s.downs && s'.batch == s.batch && s'.pending == s.pending
              && (!s.writing ==> s' == s)
  {
    match a
    case Send(inLoop, data, result) => if inLoop && s.phase == Connected { SentFrame(s, data, result); }
    case RunFunctor(result) => if s.batch[0].SendIt? { SentFrame(s.(batch := s.batch[1..]), s.batch[0].data, result); }
    case HandleWrite(result) => WrittenFrame(code, s, result);
    case _ =>
  }

  lemma StepKeepsInv(code: Code, s: State, a: Action)
    requires Inv(s) && Enabled(s, a)
    ensures Inv(Step(code, s, a))
    ensures DownOnce(s) && !Happens(code, s, a, Revive) ==> DownOnce(Step(code, s, a))
    ensures DownOnce(s) && Happens(code, s, a, Revive) ==> DownAgain(Step(code, s, a))
    ensures DownAgain(s) ==> DownAgain(Step(code, s, a))
  {
    StepFrame(code, s, a);
    match a
    case Send(inLoop, data, result) => if inLoop && s.phase == Connected { SentKeepsInv(s, data, result); }
    case RunFunctor(result) => if s.batch[0].SendIt? { SentKeepsInv(s.(batch := s.batch[1..]), s.batch[0].data, result); }
    case HandleWrite(result) => assert Inv(Written(code, s, result));
    case _ =>
    hide Sent, Written, Fits;
  }

  lemma {:induction false} RunKeepsInv(code: Code, s: State, run: seq<Action>)
    requires Inv(s) && IsRun(code, s, run)
    ensures Inv(Final(code, s, run))
    ensures DownOnce(s) ==> if Never(code, s, run, Revive) then DownOnce(Final(code, s, run)) else DownAgain(Final(code, s, run))
    ensures DownAgain(s) ==> DownAgain(Final(code, s, run))
    ensures code.forcesDisconnecting ==> Never(code, s, run, Revive)
    decreases |run|
  {
    if run != [] {
      assert code.forcesDisconnecting ==> !Happens(code, s, run[0], Revive);
      StepKeepsInv(code, s, run[0]);
      RunKeepsInv(code, Step(code, s, run[0]), run[1..]);
    }
    hide Inv, DownOnce, DownAgain, Step, Enabled, Happens;
  }

  /** Write interest is on exactly while bytes are buffered, in either code, until the connection
      goes down; with forceClose as intended the phase says when that is. */
  lemma WriteInterest(code: Code, run: seq<Action>)
    requires IsRun(code, INIT, run)
    ensures var s := Final(code, INIT, run);
            && (s.downs == 0 ==> (s.writing <==> s.output != []))
            && (code.forcesDisconnecting ==> (s.downs == 0 <==> s.phase != Disconnected))
  {
    RunKeepsInv(code, INIT, run);
  }

  /** Once the queued functors have run, the connection has gone down at most once exactly if
      forceClose was never called on a connection already down; the intended code looks after that. */
  lemma GoesDownOnce(code: Code, run: seq<Action>)
    requires IsRun(code, INIT, run) && ForceIt !in Final(code, INIT, run).batch && ForceIt !in Final(code, INIT, run).pending
    ensures Final(code, INIT, run).downs <= 1 <==> Never(code, INIT, run, Revive)
    ensures code.forcesDisconnecting ==> Never(code, INIT, run, Revive)
  {
    RunKeepsInv(code, INIT, run);
  }

  /** As written, it does go down twice if forceClose is called after the peer has closed. */
  lemma GoesDownTwice()
    ensures var run := [ConnectEstablished, HandleClose, ForceClose, Swap, RunFunctor(Failed(false))];
            IsRun(AS_WRITTEN, INIT, run) && Final(AS_WRITTEN, INIT, run).downs == 2
  {
    var run := [ConnectEstablished, HandleClose, ForceClose, Swap, RunFunctor(Failed(false))];
    var s1 := Step(AS_WRITTEN, INIT, run[0]);
    var s2 := Step(AS_WRITTEN, s1, run[1]);
    var s3 := Step(AS_WRITTEN, s2, run[2]);
    var s4 := Step(AS_WRITTEN, s3, run[3]);
    var s5 := Step(AS_WRITTEN, s4, run[4]);
    assert run[1..] == [run[1], run[2], run[3], run[4]];
    assert run[1..][1..] == [run[2], run[3], run[4]];
    assert run[1..][1..][1..] == [run[3], run[4]];
    assert run[1..][1..][1..][1..] == [run[4]];
    assert run[1..][1..][1..][1..][1..] == [];
  }

  /** As written, forceClose on a connection that is down breaks the interest rule exactly if bytes
      were left in its buffer. */
  lemma RevivedInterest(run: seq<Action>)
    requires IsRun(AS_WRITTEN, INIT, run) && Final(AS_WRITTEN, INIT, run).phase == Disconnected
    ensures var s := Step(AS_WRITTEN, Final(AS_WRITTEN, INIT, run), ForceClose);
            s.phase != Disconnected && ((s.writing <==> s.output != []) <==> s.output == [])
  {
    RunKeepsInv(AS_WRITTEN, INIT, run);
  }

  /** Every shutdownWrite finds nothing buffered, unless the connection went down with bytes in its
      buffer before the queued shutdownInLoop ran. Before that, and if nothing was given up, the kernel
      has every byte that was offered. */
  lemma HalfClosesAfterLastByte(code: Code, run: seq<Action>, a: Action)
    requires IsRun(code, INIT, run) && Enabled(Final(code, INIT, run), a) && ShutsWrite(code, Final(code, INIT, run), a)
    ensures var s := Final(code, INIT, run);
            var s' := Step(code, s, a);
            && (s'.output != [] <==> !a.HandleWrite? && s.downs > 0 && s.output != [])
            && (s.downs == 0 && code.drains && Never(code, INIT, run, Drop) ==> s'.accepted == Payloads(code, INIT, run))
  {
    var s := Final(code, INIT, run);
    RunKeepsInv(code, INIT, run);
    RunExcess(code, INIT, run);
    StepExcess(code, s, a);
    StepOffers(code, s, a);
    OfferedIsPayloads(code, INIT, run);
    assert Payload(s, a) == [] && s.offered + [] == s.offered && INIT.offered + Payloads(code, INIT, run) == Payloads(code, INIT, run);
    var s' := Step(code, s, a);
    assert s'.output == [] ==> s'.accepted + s'.output == s'.accepted;
  }

  /** As written, a connection whose buffer was ever needed does not half-close while it is up: the
      shutdown waits for a buffer that never empties. */
  lemma ShutdownWaitsForever(code: Code, run: seq<Action>, more: seq<Action>, a: Action)
    requires !code.drains && IsRun(code, INIT, run) && IsRun(code, Final(code, INIT, run), more)
    requires Final(code, INIT, run).output != []
    requires var s := Final(code, Final(code, INIT, run), more); s.downs == 0 && Enabled(s, a)
    ensures !ShutsWrite(code, Final(code, Final(code, INIT, run), more), a)
  {
    RunKeepsInv(code, INIT, run);
    RunKeepsInv(code, Final(code, INIT, run), more);
    BufferNeverEmpties(code, Final(code, INIT, run), more);
  }

  /** The exception does happen: shutdown from another thread, then the peer's close, then the functor. */
  lemma HalfClosesTooLate()
    ensures var run := [ConnectEstablished, Send(true, ['a'], Failed(false)), Shutdown(false), HandleClose, Swap];
            && IsRun(INTENDED, INIT, run)
            && var s := Final(INTENDED, INIT, run);
               && Enabled(s, RunFunctor(Failed(false))) && ShutsWrite(INTENDED, s, RunFunctor(Failed(false)))
               && Step(INTENDED, s, RunFunctor(Failed(false))).output == ['a']
  {
    var run := [ConnectEstablished, Send(true, ['a'], Failed(false)), Shutdown(false), HandleClose, Swap];
    var s1 := Step(INTENDED, INIT, run[0]);
    var s2 := Step(INTENDED, s1, run[1]);
    var s3 := Step(INTENDED, s2, run[2]);
    var s4 := Step(INTENDED, s3, run[3]);
    var s5 := Step(INTENDED, s4, run[4]);
    assert run[1..] == [run[1], run[2], run[3], run[4]];
    assert run[1..][1..] == [run[2], run[3], run[4]];
    assert run[1..][1..][1..] == [run[3], run[4]];
    assert run[1..][1..][1..][1..] == [run[4]];
    assert run[1..][1..][1..][1..][1..] == [];
  }

  // ----- posting from another thread

  /** A payload sent from another thread travels as a string, and a string turned into a StringPiece ends
      at its first NUL: the payload is posted whole exactly if it has none. */
  lemma PostedWhole(code: Code, s: State, data: Text, result: WriteResult)
    requires s.phase == Connected && Enabled(s, Send(false, data, result))
    ensures var s' := Step(code, s, Send(false, data, result));
            && |s'.pending| == |s.pending| + 1 && s'.pending[..|s.pending|] == s.pending
            && s'.pending[|s.pending|].SendIt? && s'.pending[|s.pending|].data <= data
            && (s'.pending[|s.pending|].data == data <==> NulFree(data))
  {
    CStrIsIdentity(data);
  }

  /** What a step posts to the loop. */
  function Posts(code: Code, s: State, a: Action): seq<Functor> {
    if a.Send? && !a.inLoop && s.phase == Connected then [SendIt(CStr(a.data))]
    else if a == Shutdown(false) && s.phase == Connected then [ShutdownIt]
    else if a.ForceClose? && (s.phase == Connected || s.phase == if code.forcesDisconnecting then Disconnecting else Disconnected)
    then [ForceIt]
    else []
  }

  function PostsOf(code: Code, s: State, run: seq<Action>): seq<Functor>
    requires IsRun(code, s, run)
    decreases |run|
  {
    if run == [] then [] else Posts(code, s, run[0]) + PostsOf(code, Step(code, s, run[0]), run[1..])
  }

  /** The functors that a run runs. */
  function RunsOf(code: Code, s: State, run: seq<Action>): seq<Functor>
    requires IsRun(code, s, run)
    decreases |run|
  {
    if run == [] then []
    else (if run[0].RunFunctor? then [s.batch[0]] else []) + RunsOf(code, Step(code, s, run[0]), run[1..])
  }

  lemma StepKeepsQueue(code: Code, s: State, a: Action)
    requires Enabled(s, a)
    ensures var s', ran := Step(code, s, a), if a.RunFunctor? then [s.batch[0]] else [];
            ran + (s'.batch + s'.pending) == s.batch + s.pending + Posts(code, s, a)
  {
    StepFrame(code, s, a);
    hide Sent, Written, Fits, CStr;
    var s' := Step(code, s, a);
    if a.RunFunctor? {
      assert s.batch == [s.batch[0]] + s.batch[1..];
      assert s'.batch == s.batch[1..] && s'.pending == s.pending;
    }
  }

  /** Functors run in the order in which they were posted, and none is lost or doubled. */
  lemma {:induction false} FunctorsAreFifo(code: Code, s: State, run: seq<Action>)
    requires IsRun(code, s, run)
    ensures var e := Final(code, s, run);
            RunsOf(code, s, run) + (e.batch + e.pending) == s.batch + s.pending + PostsOf(code, s, run)
    decreases |run|
  {
    if run == [] {
      assert [] + (s.batch + s.pending) == s.batch + s.pending + [];
    } else {
      var s', a := Step(code, s, run[0]), run[0];
      var e, ran := Final(code, s', run[1..]), if a.RunFunctor? then [s.batch[0]] else [];
      StepKeepsQueue(code, s, a);
      FunctorsAreFifo(code, s', run[1..]);
      Chained(ran, RunsOf(code, s', run[1..]), e.batch + e.pending, s'.batch + s'.pending,
              s.batch + s.pending, Posts(code, s, a), PostsOf(code, s', run[1..]));
    }
    hide Step, Enabled, Posts, Final;
  }

  lemma Chained(ran: seq<Functor>, runs: seq<Functor>, last: seq<Functor>, next: seq<Functor>, first: seq<Functor>,
                posts: seq<Functor>, more: seq<Functor>)
    requires ran + next == first + posts && runs + last == next + more
    ensures ran + runs + last == first + (posts + more)
  {
    assert ran + runs + last == ran + (runs + last);
    assert ran + (next + more) == ran + next + more;
    assert first + posts + more == first + (posts + more);
  }

  // ----- the transitions

  /** Whether a step takes the connection down. */
  predicate TakesDown(s: State, a: Action) {
    || (a.HandleClose? && (s.phase == Connected || s.phase == Disconnecting))
    || (a.ConnectDestroyed? && s.phase == Connected)
    || (a.RunFunctor? && s.batch != [] && s.batch[0] == ForceIt && (s.phase == Connected || s.phase == Disconnecting))
  }

  /** The phases, and when they change. A connection that goes down keeps what is in its buffer. */
  lemma Transitions(code: Code, s: State, a: Action)
    requires Enabled(s, a)
    ensures var s' := Step(code, s, a);
            && s'.downs == s.downs + (if TakesDown(s, a) then 1 else 0)
            && s'.phase == (if TakesDown(s, a) then Disconnected
                            else if a.ConnectEstablished? then Connected
                            else if (a.Shutdown? && s.phase == Connected) || Posts(code, s, a) == [ForceIt] then Disconnecting
                            else s.phase)
            && (TakesDown(s, a) ==> !s'.reading && !s'.writing && s'.output == s.output)
            && (a.ConnectEstablished? ==> s'.reading)
  {
    StepFrame(code, s, a);
    hide Sent, Written, Fits, CStr;
  }

  lemma StepForces(code: Code, s: State, a: Action, n: nat)
    requires Enabled(s, a) && (s.downs > n || ((s.phase == Connected || s.phase == Disconnecting) && s.downs == n))
    ensures var s' := Step(code, s, a);
            && (s'.downs > n || ((s'.phase == Connected || s'.phase == Disconnecting) && s'.downs == n))
            && (s.downs > n || ForceIt in s.batch || ForceIt in s.pending ==> s'.downs > n || ForceIt in s'.batch || ForceIt in s'.pending)
  {
    StepFrame(code, s, a);
    hide Sent, Written, Fits, CStr;
  }

  lemma {:induction false} RunForces(code: Code, s: State, run: seq<Action>, n: nat)
    requires IsRun(code, s, run) && (s.downs > n || ((s.phase == Connected || s.phase == Disconnecting) && s.downs == n))
    requires s.downs > n || ForceIt in s.batch || ForceIt in s.pending
    ensures var e := Final(code, s, run); e.downs > n || ForceIt in e.batch || ForceIt in e.pending
    decreases |run|
  {
    if run != [] {
      StepForces(code, s, run[0], n);
      RunForces(code, Step(code, s, run[0]), run[1..], n);
    }
    hide Step, Enabled;
  }

  /** forceClose on a connection that is up takes it down by the time the functor that it posts has run. As
      written, this is so of a connected one only: one that is disconnecting is left alone. */
  lemma ForceCloseTakesDown(code: Code, s: State, run: seq<Action>)
    requires s.phase == Connected || s.phase == Disconnecting
    requires IsRun(code, Step(code, s, ForceClose), run)
    ensures var e := Final(code, Step(code, s, ForceClose), run);
            if s.phase == Connected || code.forcesDisconnecting
            then ForceIt !in e.batch && ForceIt !in e.pending ==> e.downs > s.downs
            else Step(code, s, ForceClose) == s
  {
    if s.phase == Connected || code.forcesDisconnecting {
      var s' := Step(code, s, ForceClose);
      assert s'.pending[|s.pending|] == ForceIt;
      RunForces(code, s', run, s.downs);
    }
  }

  // ----- shutting down

  predicate EverShutsWrite(code: Code, s: State, run: seq<Action>)
    requires IsRun(code, s, run)
    decreases |run|
  {
    run != [] && (ShutsWrite(code, s, run[0]) || EverShutsWrite(code, Step(code, s, run[0]), run[1..]))
  }

  /** A connection is half-closed only on the way down: it is disconnecting, or is down already. */
  lemma HalfClosesOnlyWhenAsked(code: Code, run: seq<Action>, a: Action)
    requires IsRun(code, INIT, run) && Enabled(Final(code, INIT, run), a) && ShutsWrite(code, Final(code, INIT, run), a)
    ensures var s := Final(code, INIT, run);
            && (!s.writing || a.HandleWrite?)
            && var s' := Step(code, s, a); s'.phase == Disconnecting || s'.phase == Disconnected
  {
    RunKeepsSends(code, INIT, run);
    var s := Final(code, INIT, run);
    if a.RunFunctor? {
      assert s.batch[0] in s.batch;
    }
    StepFrame(code, s, a);
    hide Sent, Written, Fits;
  }

  /** The half-close is still to come: its functor is queued, or bytes are being written. */
  predicate Owes(s: State) {
    s.downs > 0 || (s.phase == Disconnecting && (s.writing || ShutdownIt in s.batch || ShutdownIt in s.pending))
  }

  lemma StepOwes(code: Code, s: State, a: Action)
    requires Owes(s) && Enabled(s, a)
    ensures ShutsWrite(code, s, a) || Owes(Step(code, s, a))
  {
    StepFrame(code, s, a);
    if a.RunFunctor? && s.batch[0].SendIt? {
      SentKeepsWriting(s.(batch := s.batch[1..]), s.batch[0].data, a.result);
    }
    hide Sent, Written, Fits, CStr;
    if ShutdownIt in s.batch && a.RunFunctor? {
      assert s.batch == [s.batch[0]] + s.batch[1..];
    }
  }

  lemma SentKeepsWriting(s: State, data: Text, result: WriteResult)
    requires Fits(result, data)
    ensures s.writing ==> Sent(s, data, result).writing
  {
  }

  lemma {:induction false} RunOwes(code: Code, s: State, run: seq<Action>)
    requires Owes(s) && IsRun(code, s, run)
    ensures EverShutsWrite(code, s, run) || Owes(Final(code, s, run))
    decreases |run|
  {
    if run != [] {
      StepOwes(code, s, run[0]);
      if !ShutsWrite(code, s, run[0]) {
        RunOwes(code, Step(code, s, run[0]), run[1..]);
      }
    }
    hide Step, Enabled, Owes, ShutsWrite;
  }

  /** shutdown() on a connected connection does half-close it: in any continuation in which it stays up, once the
      functor that carries the shutdown has run and nothing is buffered, shutdownWrite has been called. */
  lemma ShutdownCompletes(code: Code, run: seq<Action>, inLoop: bool, more: seq<Action>)
    requires IsRun(code, INIT, run) && Final(code, INIT, run).phase == Connected
    requires IsRun(code, Step(code, Final(code, INIT, run), Shutdown(inLoop)), more)
    ensures var s := Final(code, INIT, run);
            var e := Final(code, Step(code, s, Shutdown(inLoop)), more);
            e.downs == 0 && e.output == [] && ShutdownIt !in e.batch && ShutdownIt !in e.pending ==>
              ShutsWrite(code, s, Shutdown(inLoop)) || EverShutsWrite(code, Step(code, s, Shutdown(inLoop)), more)
  {
    var s := Final(code, INIT, run);
    var s' := Step(code, s, Shutdown(inLoop));
    RunKeepsInv(code, INIT, run);
    StepKeepsInv(code, s, Shutdown(inLoop));
    RunKeepsInv(code, s', more);
    if !ShutsWrite(code, s, Shutdown(inLoop)) {
      assert !inLoop ==> s'.pending[|s.pending|] == ShutdownIt;
      RunOwes(code, s', more);
    }
  }

  // ----- graceful shutdown

  /** Payloads that send() has accepted and that have not reached sendInLoop. */
  function Waiting(functors: seq<Functor>): nat {
    if functors == [] then 0
    else (if functors[0].SendIt? && functors[0].data != [] then 1 else 0) + Waiting(functors[1..])
  }

  function WaitingIn(s: State): nat { Waiting(s.batch) + Waiting(s.pending) }

  /** The step half-closes a connection that is up while payloads wait; they will meet a closed socket. */
  predicate CutsOff(code: Code, s: State, a: Action) {
    Enabled(s, a) && ShutsWrite(code, s, a) && s.downs == 0 && WaitingIn(Step(code, s, a)) > 0
  }

  predicate EverCutsOff(code: Code, s: State, run: seq<Action>)
    decreases |run|
  {
    run != [] && Enabled(s, run[0]) && (CutsOff(code, s, run[0]) || EverCutsOff(code, Step(code, s, run[0]), run[1..]))
  }

  /** What a caller of shutdown() would have to look at. With bytes buffered, a payload that waits for the next
      batch; with none, any payload if the call comes from the loop thread, and otherwise one in this batch
      and one for the next. */
  predicate Risky(s: State, inLoop: bool) {
    if s.writing then Waiting(s.pending) > 0
    else if inLoop then WaitingIn(s) > 0
    else Waiting(s.batch) > 0 && Waiting(s.pending) > 0
  }

  lemma {:induction false} WaitingAppend(functors: seq<Functor>, f: Functor)
    ensures Waiting(functors + [f]) == Waiting(functors) + if f.SendIt? && f.data != [] then 1 else 0
  {
    if functors == [] {
      assert functors + [f] == [f];
    } else {
      WaitingAppend(functors[1..], f);
      assert (functors + [f])[1..] == functors[1..] + [f];
    }
  }

  predicate OnlySends(functors: seq<Functor>) { forall f :: f in functors ==> f.SendIt? }

  /** No shutdown is queued before it is asked for. */
  predicate AllSends(s: State) {
    s.phase == Connecting || s.phase == Connected ==> OnlySends(s.batch) && OnlySends(s.pending)
  }

  lemma StepKeepsSends(code: Code, s: State, a: Action)
    requires Enabled(s, a) && AllSends(s)
    ensures AllSends(Step(code, s, a))
  {
    StepFrame(code, s, a);
    hide Sent, Written;
  }

  lemma {:induction false} RunKeepsSends(code: Code, s: State, run: seq<Action>)
    requires IsRun(code, s, run) && AllSends(s)
    ensures AllSends(Final(code, s, run))
    decreases |run|
  {
    if run != [] {
      StepKeepsSends(code, s, run[0]);
      RunKeepsSends(code, Step(code, s, run[0]), run[1..]);
    }
    hide Step, Enabled, AllSends;
  }

  /** Payloads come before the shutdown. */
  predicate InOrder(functors: seq<Functor>) {
    forall i, j :: 0 <= i < j < |functors| && functors[i] == ShutdownIt ==> !functors[j].SendIt?
  }

  lemma {:induction false} NothingWaits(functors: seq<Functor>)
    requires forall j :: 0 <= j < |functors| ==> !functors[j].SendIt?
    ensures Waiting(functors) == 0
  {
    if functors != [] {
      NothingWaits(functors[1..]);
    }
  }

  lemma ShutdownIsLast(functors: seq<Functor>)
    requires InOrder(functors) && functors != [] && functors[0] == ShutdownIt
    ensures Waiting(functors) == 0
  {
    forall j | 0 <= j < |functors| ensures !functors[j].SendIt? {
      assert j > 0 ==> functors[0] == ShutdownIt && !functors[j].SendIt?;
    }
    NothingWaits(functors);
  }

  /** Disconnecting, with the payloads that wait either all in the batch, in front of any shutdown, or all
      behind a batch that leaves the empty buffer alone. */
  predicate IsCalm(s: State) {
    || s.downs > 0
    || (s.phase == Disconnecting && InOrder(s.batch) && InOrder(s.pending)
        && (|| Waiting(s.pending) == 0
            || (Waiting(s.batch) == 0 && ShutdownIt !in s.batch && !s.writing && s.output == [])))
  }

  lemma StepIsCalm(code: Code, s: State, a: Action)
    requires IsCalm(s) && Enabled(s, a)
    ensures IsCalm(Step(code, s, a)) && !CutsOff(code, s, a)
  {
    WaitingAppend(s.pending, ForceIt);
    StepFrame(code, s, a);
    hide Sent, Written, Fits;
    if s.downs == 0 && a.RunFunctor? && s.batch[0] == ShutdownIt {
      ShutdownIsLast(s.batch);
    }
  }

  lemma {:induction false} RunIsCalm(code: Code, s: State, run: seq<Action>)
    requires IsCalm(s) && IsRun(code, s, run)
    ensures !EverCutsOff(code, s, run)
    decreases |run|
  {
    if run != [] {
      StepIsCalm(code, s, run[0]);
      RunIsCalm(code, Step(code, s, run[0]), run[1..]);
    }
    hide IsCalm, Step, Enabled, CutsOff;
  }

  lemma SafeShutdownIsCalm(code: Code, s: State, inLoop: bool)
    requires Inv(s) && s.phase == Connected && AllSends(s) && !Risky(s, inLoop)
    ensures IsCalm(Step(code, s, Shutdown(inLoop))) && !CutsOff(code, s, Shutdown(inLoop))
  {
    WaitingAppend(s.pending, ShutdownIt);
  }

  /** A payload waits for the next batch, and bytes are buffered or will be by this one: they are written out
      between the two batches, and the payload comes too late. */
  lemma {:induction false} NextBatchIsCutOff(code: Code, s: State) returns (run: seq<Action>)
    requires code.drains && s.phase == Disconnecting && s.downs == 0 && (s.writing <==> s.output != [])
    requires OnlySends(s.batch) && Waiting(s.pending) > 0 && (s.writing || Waiting(s.batch) > 0)
    ensures IsRun(code, s, run) && EverCutsOff(code, s, run)
    decreases |s.batch|
  {
    if s.batch == [] {
      var a := HandleWrite(Wrote(|s.output|));
      assert CutsOff(code, s, a);
      run := [a];
      assert run[1..] == [];
    } else {
      assert s.batch[0] in s.batch;
      var a := RunFunctor(Failed(false));
      var rest := NextBatchIsCutOff(code, Step(code, s, a));
      run := [a] + rest;
      assert run[1..] == rest;
    }
  }

  lemma RiskyCutsOff(code: Code, s: State, inLoop: bool) returns (more: seq<Action>)
    requires code.drains && Inv(s) && s.phase == Connected && AllSends(s) && Risky(s, inLoop)
    ensures IsRun(code, s, [Shutdown(inLoop)] + more) && EverCutsOff(code, s, [Shutdown(inLoop)] + more)
  {
    var a := Shutdown(inLoop);
    WaitingAppend(s.pending, ShutdownIt);
    if inLoop && !s.writing {
      more := [];
      assert CutsOff(code, s, a);
    } else {
      more := NextBatchIsCutOff(code, Step(code, s, a));
    }
    assert ([a] + more)[1..] == more;
  }

  /** shutdown() is graceful, that is, it never cuts off a payload that send() accepted before, exactly if the
      call is not risky: handleWrite half-closes when the buffer empties, even if the functor that carries
      the next payload is still pending. */
  lemma ShutdownIsGraceful(code: Code, run: seq<Action>, inLoop: bool)
    requires code.drains && IsRun(code, INIT, run) && Final(code, INIT, run).phase == Connected
    ensures var s := Final(code, INIT, run);
            (exists more :: IsRun(code, s, [Shutdown(inLoop)] + more) && EverCutsOff(code, s, [Shutdown(inLoop)] + more))
            <==> Risky(s, inLoop)
  {
    var s := Final(code, INIT, run);
    RunKeepsInv(code, INIT, run);
    RunKeepsSends(code, INIT, run);
    if Risky(s, inLoop) {
      var more := RiskyCutsOff(code, s, inLoop);
    } else {
      SafeShutdownIsCalm(code, s, inLoop);
      forall more | IsRun(code, s, [Shutdown(inLoop)] + more) ensures !EverCutsOff(code, s, [Shutdown(inLoop)] + more) {
        assert ([Shutdown(inLoop)] + more)[1..] == more;
        RunIsCalm(code, Step(code, s, Shutdown(inLoop)), more);
      }
    }
  }

  // ----- the object

  /** The connection, with its channel's interest, the loop's queue and the kernel's side of the socket. */
  class TcpConnection {
    const code: Code
    var phase: Phase
    var reading: bool
    var writing: bool
    var outputBuffer: Text
    var batch: seq<Functor>         // doPendingFunctors' functors, and the loop's pendingFunctors_
    var pending: seq<Functor>
    ghost var accepted: Text
    ghost var offered: Text
    ghost var downs: nat
    var halfCloses: nat             // calls of shutdownWrite

    ghost function Abs(): State
      reads this
    {
      State(phase, reading, writing, outputBuffer, accepted, offered, downs, batch, pending)
    }

    constructor (code: Code)
      ensures Abs() == INIT && halfCloses == 0 && this.code == code
    {
      this.code := code;
      phase, reading, writing, outputBuffer, batch, pending := Connecting, false, false, [], [], [];
      accepted, offered, downs, halfCloses := [], [], 0, 0;
    }

    method ConnectEstablished()
      requires Enabled(Abs(), Action.ConnectEstablished)
      modifies this
      ensures Abs() == Step(code, old(Abs()), Action.ConnectEstablished) && halfCloses == old(halfCloses)
    {
      phase, reading := Connected, true;
    }

    method Send(inLoop: bool, data: Text, result: WriteResult)
      requires Enabled(Abs(), Action.Send(inLoop, data, result))
      modifies this
      ensures Abs() == Step(code, old(Abs()), Action.Send(inLoop, data, result)) && halfCloses == old(halfCloses)
    {
      if phase == Connected {
        if inLoop {
          hide Sent;
          SendInLoop(data, result);
        } else {
          pending := pending + [SendIt(CStr(data))];
        }
      }
    }

    method SendInLoop(data: Text, result: WriteResult)
      requires Fits(result, data)
      modifies this
      ensures Abs() == Sent(old(Abs()), data, result) && halfCloses == old(halfCloses)
    {
      offered := offered + data;
      if phase == Disconnected {
        return;
      }
      var nwrote, faultError := 0, false;
      if !writing && |outputBuffer| == 0 {
        match result {
          case Wrote(n) => nwrote := n;
          case Failed(fault) => faultError := fault;
        }
      }
      accepted := accepted + data[..nwrote];
      if !faultError && nwrote < |data| {
        outputBuffer := outputBuffer + data[nwrote..];
        if !writing {
          writing := true;
        }
      }
    }

    method HandleWrite(result: WriteResult)
      requires Enabled(Abs(), Action.HandleWrite(result))
      modifies this
      ensures Abs() == Step(code, old(Abs()), Action.HandleWrite(result))
      ensures halfCloses == old(halfCloses) + if old(ShutsWrite(code, Abs(), Action.HandleWrite(result))) then 1 else 0
    {
      if writing && result.Wrote? && result.n > 0 {
        accepted := accepted + outputBuffer[..result.n];
        outputBuffer := outputBuffer[if code.drains then result.n else 0..];
        if |outputBuffer| == 0 {
          writing := false;
          if phase == Disconnecting {
            ShutdownInLoop();
          }
        }
      }
    }

    method Shutdown(inLoop: bool)
      modifies this
      ensures Abs() == Step(code, old(Abs()), Action.Shutdown(inLoop))
      ensures halfCloses == old(halfCloses) + if old(ShutsWrite(code, Abs(), Action.Shutdown(inLoop))) then 1 else 0
    {
      if phase == Connected {
        phase := Disconnecting;
        if inLoop {
          ShutdownInLoop();
        } else {
          pending := pending + [ShutdownIt];
        }
      }
    }

    method ShutdownInLoop()
      modifies this`halfCloses
      ensures halfCloses == old(halfCloses) + if writing then 0 else 1
    {
      if !writing {
        halfCloses := halfCloses + 1;
      }
    }

    method ForceClose()
      modifies this
      ensures Abs() == Step(code, old(Abs()), Action.ForceClose) && halfCloses == old(halfCloses)
    {
      if phase == Connected || phase == (if code.forcesDisconnecting then Disconnecting else Disconnected) {
        phase := Disconnecting;
        pending := pending + [ForceIt];
      }
    }

    method ForceCloseInLoop()
      modifies this
      ensures Abs() == if old(phase) == Connected || old(phase) == Disconnecting then Closed(old(Abs())) else old(Abs())
      ensures halfCloses == old(halfCloses)
    {
      if phase == Connected || phase == Disconnecting {
        HandleClose();
      }
    }

    /** doPendingFunctors takes everything posted so far. */
    method SwapFunctors()
      requires batch == []
      modifies this
      ensures Abs() == Step(code, old(Abs()), Swap) && halfCloses == old(halfCloses)
    {
      batch, pending := pending, batch;
    }

    /** doPendingFunctors runs the next functor of its batch. */
    method RunFunctor(result: WriteResult)
      requires Enabled(Abs(), Action.RunFunctor(result))
      modifies this
      ensures Abs() == Step(code, old(Abs()), Action.RunFunctor(result))
      ensures halfCloses == old(halfCloses) + if old(ShutsWrite(code, Abs(), Action.RunFunctor(result))) then 1 else 0
    {
      hide Sent;
      var f := batch[0];
      batch := batch[1..];
      match f {
        case SendIt(data) => SendInLoop(data, result);
        case ShutdownIt => ShutdownInLoop();
        case ForceIt => ForceCloseInLoop();
      }
    }

    method HandleClose()
      requires phase == Connected || phase == Disconnecting
      modifies this
      ensures Abs() == Closed(old(Abs())) && halfCloses == old(halfCloses)
    {
      phase := Disconnected;
      reading, writing := false, false;
      downs := downs + 1;
    }

    method ConnectDestroyed()
      requires Enabled(Abs(), Action.ConnectDestroyed)
      modifies this
      ensures Abs() == Step(code, old(Abs()), Action.ConnectDestroyed) && halfCloses == old(halfCloses)
    {
      if phase == Connected {
        phase := Disconnected;
        reading, writing := false, false;
        downs := downs + 1;
      }
    }
  }
}
