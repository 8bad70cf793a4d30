/** The echo server's timing wheel. Each second a fresh bucket pushes the oldest one out; an entry that is
    in no other bucket is destroyed with it, and shuts its connection down. */
module TimingWheel {

  type Conn = nat

  /** Entries are named after their connections. `alive` are the connections that still exist, `shut`
      those that the wheel has shut down. */
  datatype Wheel = Wheel(buckets: seq<set<Conn>>, known: set<Conn>, alive: set<Conn>, destroyed: set<Conn>, shut: set<Conn>)

  /** Only the buckets hold entries, so a weak reference can be locked while a bucket has the entry. */
  predicate InWheel(w: Wheel, c: Conn) { exists i :: 0 <= i < |w.buckets| && c in w.buckets[i] }

  datatype Action = Connect(c: Conn) | Message(c: Conn) | Tick | Free(c: Conn)

  predicate Enabled(w: Wheel, a: Action) {
    match a
    case Connect(c) => c !in w.known
    case Message(c) => c in w.known && c in w.alive
    case Tick => true
    case Free(c) => c in w.alive
  }

  /** Puts an entry in the newest bucket. */
  function Touched(w: Wheel, c: Conn): Wheel {
    if w.buckets == [] then w
    else w.(buckets := w.buckets[|w.buckets| - 1 := w.buckets[|w.buckets| - 1] + {c}])
  }

  /** The entries that go with the oldest bucket. */
  function Expiring(w: Wheel): set<Conn> {
    if w.buckets == [] then {} else set c | c in w.buckets[0] && !InWheel(w.(buckets := w.buckets[1..]), c)
  }

  function Turned(w: Wheel): Wheel {
    if w.buckets == [] then w
    else w.(buckets := w.buckets[1..] + [{}], destroyed := w.destroyed + Expiring(w), shut := w.shut + Expiring(w) * w.alive)
  }

  function Step(w: Wheel, a: Action): Wheel
    requires Enabled(w, a)
  {
    match a
    case Connect(c) => Touched(w, c).(known := w.known + {c}, alive := w.alive + {c})
    case Message(c) => if InWheel(w, c) then Touched(w, c) else w
    case Tick => Turned(w)
    case Free(c) => w.(alive := w.alive - {c})
  }

  predicate IsRun(w: Wheel, run: seq<Action>)
    decreases |run|
  {
    run == [] || (Enabled(w, run[0]) && IsRun(Step(w, run[0]), run[1..]))
  }

  function Final(w: Wheel, run: seq<Action>): Wheel
    requires IsRun(w, run)
    decreases |run|
  {
    if run == [] then w else Final(Step(w, run[0]), run[1..])
  }

  function Fresh(n: nat): Wheel { Wheel(seq(n, _ => {}), {}, {}, {}, {}) }

  // ----- what the wheel is for: a clock and the time of each connection's last activity

  datatype Clock = Clock(now: nat, last: map<Conn, nat>)

  /** Idle for n ticks. */
  predicate Expired(n: nat, k: Clock, c: Conn) { c in k.last && k.last[c] + n <= k.now }

  function Advance(n: nat, k: Clock, a: Action): Clock {
    match a
    case Connect(c) => k.(last := k.last[c := k.now])
    case Message(c) => if c in k.last && !Expired(n, k, c) then k.(last := k.last[c := k.now]) else k
    case Tick => k.(now := k.now + 1)
    case Free(_) => k
  }

  function AdvanceAll(n: nat, k: Clock, run: seq<Action>): Clock
    decreases |run|
  {
    if run == [] then k else AdvanceAll(n, Advance(n, k, run[0]), run[1..])
  }

  const NOON := Clock(0, map[])

  /** Bucket i has not been the newest one for n - 1 - i ticks. */
  predicate InTime(n: nat, k: Clock, i: int, c: Conn) { c in k.last && k.last[c] + n - 1 - i >= k.now }

  ghost predicate Matches(n: nat, w: Wheel, k: Clock) {
    && n >= 1 && |w.buckets| == n && w.known == k.last.Keys
    && (forall c :: c in k.last ==> k.last[c] <= k.now)
    && (forall c :: c in w.destroyed <==> Expired(n, k, c))
    && (forall i, c {:trigger InTime(n, k, i, c)} {:trigger c in w.buckets[i]} :: 0 <= i < n && c in w.buckets[i] ==> InTime(n, k, i, c))
    && (forall c :: c in k.last && !Expired(n, k, c) ==> c in w.buckets[n - 1 - (k.now - k.last[c])])
  }

  lemma InWheelIffActive(n: nat, w: Wheel, k: Clock, c: Conn)
    requires Matches(n, w, k)
    ensures InWheel(w, c) <==> c in k.last && !Expired(n, k, c)
  {
    if InWheel(w, c) {
      var i :| 0 <= i < |w.buckets| && c in w.buckets[i];
      assert InTime(n, k, i, c);
    }
  }

  lemma TouchedMatches(n: nat, w: Wheel, k: Clock, c: Conn)
    requires Matches(n, w, k) && c !in w.destroyed
    ensures Matches(n, Touched(w, c).(known := w.known + {c}), k.(last := k.last[c := k.now]))
  {
    var w', k' := Touched(w, c), k.(last := k.last[c := k.now]);
    forall i, d | 0 <= i < n && d in w'.buckets[i] ensures InTime(n, k', i, d) {
      assert d in w.buckets[i] || d == c;
      assert d in w.buckets[i] ==> InTime(n, k, i, d);
    }
  }

  lemma ExpiringIffDue(n: nat, w: Wheel, k: Clock, c: Conn)
    requires Matches(n, w, k)
    ensures c in Expiring(w) <==> c in k.last && k.last[c] + n == k.now + 1
  {
    var younger := w.(buckets := w.buckets[1..]);
    if c in w.buckets[0] {
      assert InTime(n, k, 0, c);
    }
    if InWheel(younger, c) {
      var i :| 0 <= i < |younger.buckets| && c in younger.buckets[i];
      assert c in w.buckets[i + 1] && InTime(n, k, i + 1, c);
    }
    if c in k.last && !Expired(n, k, c) {
      var i := n - 1 - (k.now - k.last[c]);
      assert c in w.buckets[i];
      if i > 0 {
        assert younger.buckets[i - 1] == w.buckets[i];
      }
    }
  }

  lemma TurnedMatches(n: nat, w: Wheel, k: Clock)
    requires Matches(n, w, k)
    ensures Matches(n, Turned(w), k.(now := k.now + 1))
  {
    var w', k' := Turned(w), k.(now := k.now + 1);
    forall c ensures c in w'.destroyed <==> Expired(n, k', c) {
      ExpiringIffDue(n, w, k, c);
    }
    hide Expiring;
    forall i, c | 0 <= i < n && c in w'.buckets[i] ensures InTime(n, k', i, c) {
      assert i < n - 1 && c in w.buckets[i + 1] && InTime(n, k, i + 1, c);
    }
    forall c | c in k'.last && !Expired(n, k', c) ensures c in w'.buckets[n - 1 - (k'.now - k'.last[c])] {
      assert c in w.buckets[n - 1 - (k.now - k.last[c])];
    }
  }

  lemma StepMatches(n: nat, w: Wheel, k: Clock, a: Action)
    requires Matches(n, w, k) && Enabled(w, a)
    ensures Matches(n, Step(w, a), Advance(n, k, a))
  {
    match a
    case Connect(c) =>
      TouchedMatches(n, w, k, c);
    case Message(c) =>
      InWheelIffActive(n, w, k, c);
      if InWheel(w, c) { TouchedMatches(n, w, k, c); assert w.known + {c} == w.known; }
    case Tick => TurnedMatches(n, w, k);
    case Free(_) =>
  }

  lemma {:induction false} RunMatches(n: nat, w: Wheel, k: Clock, run: seq<Action>)
    requires Matches(n, w, k) && IsRun(w, run)
    ensures Matches(n, Final(w, run), AdvanceAll(n, k, run))
    decreases |run|
  {
    if run != [] {
      StepMatches(n, w, k, run[0]);
      RunMatches(n, Step(w, run[0]), Advance(n, k, run[0]), run[1..]);
    }
    hide Matches, Step, Advance, Enabled;
  }

  /** At any time the entries in the wheel are those of the connections that were active within n ticks, the
      others have been destroyed, and the next tick destroys exactly those whose n-th tick it is, shutting
      down the ones whose connection exists. */
  lemma WheelIsExact(n: nat, run: seq<Action>, c: Conn)
    requires n >= 1 && IsRun(Fresh(n), run)
    ensures var w, k := Final(Fresh(n), run), AdvanceAll(n, NOON, run);
            && (InWheel(w, c) <==> c in k.last && k.now < k.last[c] + n)
            && (c in w.destroyed <==> c in k.last && k.last[c] + n <= k.now)
            && (c in Turned(w).destroyed && c !in w.destroyed <==> c in k.last && k.last[c] + n == k.now + 1)
            && (c in Turned(w).shut <==> c in w.shut || (c in k.last && k.last[c] + n == k.now + 1 && c in w.alive))
  {
    RunMatches(n, Fresh(n), NOON, run);
    var w, k := Final(Fresh(n), run), AdvanceAll(n, NOON, run);
    InWheelIffActive(n, w, k, c);
    ExpiringIffDue(n, w, k, c);
    hide InWheel, Expiring;
  }

  function Ticks(run: seq<Action>): nat {
    if run == [] then 0 else (if run[0] == Tick then 1 else 0) + Ticks(run[1..])
  }

  lemma {:induction false} QuietClock(n: nat, w: Wheel, k: Clock, run: seq<Action>, c: Conn)
    requires IsRun(w, run) && c in k.last && c in w.known && Message(c) !in run
    ensures var k' := AdvanceAll(n, k, run); c in k'.last && k'.last[c] == k.last[c] && k'.now == k.now + Ticks(run)
    decreases |run|
  {
    if run != [] {
      assert run[0] in run && forall a :: a in run[1..] ==> a in run;
      QuietClock(n, Step(w, run[0]), Advance(n, k, run[0]), run[1..], c);
    }
  }

  /** After an activity of a connection whose entry is not gone, the entry stays for as long as fewer than n
      ticks pass without another, is destroyed by the n-th, and never comes back. */
  lemma IdleForNTicks(n: nat, run: seq<Action>, a: Action, more: seq<Action>)
    requires n >= 1 && IsRun(Fresh(n), run)
    requires var w := Final(Fresh(n), run);
             && Enabled(w, a) && (a.Connect? || (a.Message? && InWheel(w, a.c)))
             && IsRun(Step(w, a), more) && Message(a.c) !in more
    ensures var w := Final(Step(Final(Fresh(n), run), a), more);
            InWheel(w, a.c) == (Ticks(more) < n) && (a.c in w.destroyed) == (Ticks(more) >= n)
  {
    var w, k := Final(Fresh(n), run), AdvanceAll(n, NOON, run);
    RunMatches(n, Fresh(n), NOON, run);
    if a.Message? {
      InWheelIffActive(n, w, k, a.c);
    }
    var w', k' := Step(w, a), Advance(n, k, a);
    StepMatches(n, w, k, a);
    RunMatches(n, w', k', more);
    QuietClock(n, w', k', more, a.c);
    InWheelIffActive(n, Final(w', more), AdvanceAll(n, k', more), a.c);
    hide InWheel, Step, Enabled;
  }

  lemma {:induction false} DestroyedStaysOut(n: nat, w: Wheel, k: Clock, run: seq<Action>, c: Conn)
    requires Matches(n, w, k) && IsRun(w, run) && c in w.destroyed
    ensures c in Final(w, run).destroyed && !InWheel(Final(w, run), c)
    decreases |run|
  {
    if run == [] {
      InWheelIffActive(n, w, k, c);
    } else {
      StepMatches(n, w, k, run[0]);
      assert c in Step(w, run[0]).destroyed;
      DestroyedStaysOut(n, Step(w, run[0]), Advance(n, k, run[0]), run[1..], c);
    }
    hide Step, InWheel, Enabled, Advance;
  }

  /** Expiry is for good: no message brings an entry back. */
  lemma ExpiryIsFinal(n: nat, run: seq<Action>, more: seq<Action>, c: Conn)
    requires n >= 1 && IsRun(Fresh(n), run) && c in Final(Fresh(n), run).destroyed && IsRun(Final(Fresh(n), run), more)
    ensures !InWheel(Final(Final(Fresh(n), run), more), c)
  {
    RunMatches(n, Fresh(n), NOON, run);
    DestroyedStaysOut(n, Final(Fresh(n), run), AdvanceAll(n, NOON, run), more, c);
  }

  lemma {:induction false} ConnectsOnce(w: Wheel, run: seq<Action>, c: Conn)
    requires IsRun(w, run) && c in w.known
    ensures Connect(c) !in run && c in Final(w, run).known
    decreases |run|
  {
    if run != [] {
      ConnectsOnce(Step(w, run[0]), run[1..], c);
      assert run == [run[0]] + run[1..];
    }
    hide InWheel, Expiring;
  }

  lemma {:induction false} RunLives(w: Wheel, run: seq<Action>, c: Conn)
    requires IsRun(w, run) && (c in w.alive ==> c in w.known)
    ensures var e := Final(w, run);
            && (c in e.known <==> c in w.known || Connect(c) in run)
            && (c in e.alive <==> (c in w.alive || Connect(c) in run) && Free(c) !in run)
    decreases |run|
  {
    if run != [] {
      var w', a := Step(w, run[0]), run[0];
      assert run == [a] + run[1..];
      RunLives(w', run[1..], c);
      if c in w'.known {
        ConnectsOnce(w', run[1..], c);
      }
    }
    hide InWheel, Expiring, Touched, Turned;
  }

  /** The connections that exist are those that were made and not freed in the run; the wheel keeps none alive. */
  lemma LivesAreTheirOwn(n: nat, run: seq<Action>, c: Conn)
    requires IsRun(Fresh(n), run)
    ensures var w := Final(Fresh(n), run);
            (c in w.known <==> Connect(c) in run) && (c in w.alive <==> Connect(c) in run && Free(c) !in run)
  {
    RunLives(Fresh(n), run, c);
  }

  // ----- the server

  class EchoServer {
    const ring: array<set<Conn>>      // a full circular buffer
    var first: nat                    // where its oldest bucket is
    var known: set<Conn>              // the connections that carry a context
    ghost var alive: set<Conn>
    ghost var destroyed: set<Conn>
    ghost var shut: set<Conn>

    ghost predicate Valid()
      reads this
    {
      first < ring.Length
    }

    function At(i: nat): nat
      requires i < ring.Length
      reads this
    {
      if first + i < ring.Length then first + i else first + i - ring.Length
    }

    function Buckets(): seq<set<Conn>>
      requires Valid()
      reads this, ring
    {
      ring[first..] + ring[..first]
    }

    ghost function Abs(): Wheel
      requires Valid()
      reads this, ring
    {
      Wheel(Buckets(), known, alive, destroyed, shut)
    }

    constructor (idleSeconds: nat)
      requires idleSeconds >= 1
      ensures Valid() && fresh(ring) && Abs() == Fresh(idleSeconds)
    {
      ring := new set<Conn>[idleSeconds](_ => {});
      first, known, alive, destroyed, shut := 0, {}, {}, {}, {};
      new;
      assert Buckets() == Fresh(idleSeconds).buckets;
    }

    /** Whether the weak reference in a connection's context can be locked. */
    method Lock(c: Conn) returns (found: bool)
      requires Valid()
      ensures found == InWheel(Abs(), c)
    {
      var i := 0;
      while i < ring.Length && c !in ring[At(i)]
        invariant 0 <= i <= ring.Length && forall j :: 0 <= j < i ==> c !in Buckets()[j]
      {
        assert ring[At(i)] == Buckets()[i];
        i := i + 1;
      }
      found := i < ring.Length;
      assert found ==> c in Buckets()[i];
    }

    /** connectionBuckets_.back().insert. */
    method InsertInBack(c: Conn)
      requires Valid()
      modifies ring
      ensures Abs() == Touched(old(Abs()), c)
    {
      var back := At(ring.Length - 1);
      ghost var was := Buckets();
      ring[back] := ring[back] + {c};
      assert Buckets() == was[|was| - 1 := was[|was| - 1] + {c}];
    }

    method OnConnection(c: Conn, connected: bool)
      requires Valid() && if connected then Enabled(Abs(), Connect(c)) else c in known
      modifies this, ring
      ensures Valid() && Abs() == if connected then Step(old(Abs()), Connect(c)) else old(Abs())
    {
      if connected {
        InsertInBack(c);
        known, alive := known + {c}, alive + {c};
      }
    }

    method OnMessage(c: Conn)
      requires Valid() && Enabled(Abs(), Message(c))
      modifies ring
      ensures Valid() && Abs() == Step(old(Abs()), Message(c))
    {
      var found := Lock(c);
      if found {
        InsertInBack(c);
      }
    }

    /** push_back on the full buffer. What that does to the entries is the ghost part. */
    method OnTimer()
      requires Valid()
      modifies this, ring
      ensures Valid() && Abs() == Step(old(Abs()), Tick)
    {
      ghost var was, out := Buckets(), Expiring(Abs());
      ring[first] := {};
      first := if first + 1 < ring.Length then first + 1 else 0;
      destroyed, shut := destroyed + out, shut + out * alive;
      assert Buckets() == was[1..] + [{}];
    }
  }
}
