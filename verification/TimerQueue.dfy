/** The timer queue as it is built: timers live at addresses that are reused once freed, one set
    orders them by expiration and one by address, and a third remembers cancellations that arrive
    while callbacks run. It refines the model, which knows neither addresses nor sets. */
module TimerQueue {
  import opened TimerModel
  import opened Wrappers
  import opened TimerSet
  import TimerAlarm

  /** A `Timer` in memory. */
  datatype Object = Object(expiration: Time, repeat: bool, interval: nat, sequence: Sequence)

  // ----- how the concrete state represents the model

  type Heap = map<Address, Object>
  type IdSet = set<(Address, Sequence)>

  /** What is stored at a timer's address. */
  function Stored(t: Timer, s: Sequence): Object {
    Object(t.expiration, t.repeat, t.interval, s)
  }

  ghost predicate Allocated(h: Heap, q: Queue, s: Sequence)
    requires s in q.timers
  {
    q.timers[s].address in h && h[q.timers[s].address] == Stored(q.timers[s], s)
  }

  ghost predicate Owned(h: Heap, q: Queue, a: Address)
    requires a in h
  {
    && h[a].sequence in q.timers
    && q.timers[h[a].sequence].address == a
    && q.timers[h[a].sequence].where != Freed
  }

  /** The heap holds exactly the timers that are not freed: none leaks, none dangles. */
  ghost predicate HeapMatches(h: Heap, q: Queue) {
    && (forall s :: s in q.timers && q.timers[s].where != Freed ==> Allocated(h, q, s))
    && (forall a :: a in h ==> Owned(h, q, a))
  }

  ghost predicate IsActive(q: Queue, s: Sequence) {
    s in q.timers && q.timers[s].where == Active
  }

  ghost predicate Indexed(h: Heap, q: Queue, e: Entry) {
    e.1 < UINTPTR_MAX && e.1 in h && h[e.1].expiration == e.0 && IsActive(q, h[e.1].sequence)
  }

  ghost predicate Known(h: Heap, q: Queue, p: (Address, Sequence)) {
    p.0 in h && h[p.0].sequence == p.1 && IsActive(q, p.1)
  }

  /** Both indexes hold exactly the active timers, by expiration and by sequence number. */
  ghost predicate IndexesMatch(timers: seq<Entry>, active: IdSet, h: Heap, q: Queue) {
    && Sorted(timers)
    && |timers| == |active|
    && (forall e :: e in timers <==> Indexed(h, q, e))
    && (forall p :: p in active <==> Known(h, q, p))
  }

  ghost predicate InBatch(h: Heap, e: Entry, s: Sequence) {
    e.1 < UINTPTR_MAX && e.1 in h && h[e.1].sequence == s
  }

  ghost predicate BatchMatches(expired: seq<Entry>, canceling: IdSet, h: Heap, q: Queue) {
    && |expired| == |q.batch|
    && (forall i :: 0 <= i < |expired| ==> InBatch(h, expired[i], q.batch[i]))
    && (forall s :: s in q.timers && q.timers[s].where.Expired? ==>
          (q.timers[s].where.cancelled <==> (q.timers[s].address, s) in canceling))
  }

  ghost predicate Represents(timers: seq<Entry>, active: IdSet, canceling: IdSet, expired: seq<Entry>, h: Heap, q: Queue) {
    && Coherent(q)
    && HeapMatches(h, q)
    && IndexesMatch(timers, active, h, q)
    && BatchMatches(expired, canceling, h, q)
  }

  lemma BatchIsKnown(expired: seq<Entry>, canceling: IdSet, h: Heap, q: Queue)
    requires Coherent(q) && BatchMatches(expired, canceling, h, q)
    ensures |expired| == |q.batch| && forall s :: s in q.batch ==> s in q.timers
  {
  }

  lemma SizesAgree(timers: seq<Entry>, active: IdSet, h: Heap, q: Queue)
    requires IndexesMatch(timers, active, h, q)
    ensures |timers| == |active|
  {
  }

  lemma RepresentsWithout(timers: seq<Entry>, active: IdSet, canceling: IdSet, expired: seq<Entry>, h: Heap, q: Queue)
    requires Represents(timers, active, canceling, expired, h, q)
    ensures Represents(timers, active, canceling, expired, h, q.(calling := false, next := 0))
  {
    var q' := q.(calling := false, next := 0);
    assert forall s :: IsActive(q', s) <==> IsActive(q, s);
    assert forall e :: Indexed(h, q', e) <==> Indexed(h, q, e);
    assert forall p :: Known(h, q', p) <==> Known(h, q, p);
    assert forall a :: a in h ==> (Owned(h, q', a) <==> Owned(h, q, a));
    assert forall s :: s in q.timers ==> (Allocated(h, q', s) <==> Allocated(h, q, s));
  }

  lemma CreateHeap(h: Heap, q: Queue, act: Action)
    requires Inv(q) && HeapMatches(h, q) && act.Create? && act.address !in h
    ensures Enabled(q, act)
    ensures HeapMatches(h[act.address := Object(act.when, act.repeat, act.interval, q.created + 1)], Step(q, act))
  {
    var a := act.address;
    forall s | s in q.timers && q.timers[s].where != Freed ensures q.timers[s].address != a {
      assert Allocated(h, q, s);
    }
    var q' := Step(q, act);
    var h' := h[a := Object(act.when, act.repeat, act.interval, q.created + 1)];
    forall x | x in h' ensures Owned(h', q', x) {
      assert x in h ==> Owned(h, q, x);
    }
    forall s | s in q'.timers && q'.timers[s].where != Freed ensures Allocated(h', q', s) {
      assert s in q.timers ==> Allocated(h, q, s);
    }
  }

  lemma CreateIndexes(timers: seq<Entry>, active: IdSet, h: Heap, q: Queue, act: Action)
    requires Inv(q) && HeapMatches(h, q) && IndexesMatch(timers, active, h, q) && Enabled(q, act) && act.Create? && act.address !in h
    ensures IndexesMatch(timers, active, h[act.address := Object(act.when, act.repeat, act.interval, q.created + 1)], Step(q, act))
  {
    var q' := Step(q, act);
    var h' := h[act.address := Object(act.when, act.repeat, act.interval, q.created + 1)];
    forall e: Entry ensures Indexed(h', q', e) <==> Indexed(h, q, e) {
      if e.1 < UINTPTR_MAX && e.1 in h { assert Owned(h, q, e.1); }
    }
    forall p: (Address, Sequence) ensures Known(h', q', p) <==> Known(h, q, p) {
      if p.0 in h { assert Owned(h, q, p.0); }
    }
  }

  lemma CreateBatch(canceling: IdSet, expired: seq<Entry>, h: Heap, q: Queue, act: Action)
    requires Inv(q) && BatchMatches(expired, canceling, h, q) && Enabled(q, act) && act.Create? && act.address !in h
    ensures BatchMatches(expired, canceling, h[act.address := Object(act.when, act.repeat, act.interval, q.created + 1)], Step(q, act))
  {
    var h' := h[act.address := Object(act.when, act.repeat, act.interval, q.created + 1)];
    forall i | 0 <= i < |expired| ensures InBatch(h', expired[i], q.batch[i]) {
      assert InBatch(h, expired[i], q.batch[i]);
    }
  }

  lemma CreateRepresents(timers: seq<Entry>, active: IdSet, canceling: IdSet, expired: seq<Entry>, h: Heap, q: Queue, act: Action)
    requires Represents(timers, active, canceling, expired, h, q) && Inv(q) && act.Create? && act.address !in h
    ensures Enabled(q, act)
    ensures Represents(timers, active, canceling, expired,
                       h[act.address := Object(act.when, act.repeat, act.interval, q.created + 1)], Step(q, act))
  {
    hide HeapMatches, IndexesMatch, BatchMatches, Coherent, Step;
    CreateHeap(h, q, act);
    CreateIndexes(timers, active, h, q, act);
    CreateBatch(canceling, expired, h, q, act);
    StepKeepsInv(q, act);
  }

  /** Queueing a timer that is not active: from `addTimerInLoop` and from `reset`. */
  lemma InsertRepresents(timers: seq<Entry>, active: IdSet, h: Heap, q: Queue, h': Heap, q': Queue, a: Address)
    requires Coherent(q) && HeapMatches(h, q) && IndexesMatch(timers, active, h, q)
    requires a in h && var s := h[a].sequence; && s in q.timers && q.timers[s].address == a && !IsActive(q, s)
    requires a in h' && h' == h[a := h'[a]] && h'[a].sequence == h[a].sequence
    requires forall x :: IsActive(q', x) <==> IsActive(q, x) || x == h[a].sequence
    ensures (h'[a].expiration, a) !in timers && (a, h[a].sequence) !in active
    ensures IndexesMatch(Inserted(timers, (h'[a].expiration, a)), active + {(a, h[a].sequence)}, h', q')
  {
    var e0 := (h'[a].expiration, a as nat);
    var p0 := (a, h[a].sequence);
    assert !Indexed(h, q, e0) && !Known(h, q, p0);
    InsertedIsSorted(timers, e0);
    forall e: Entry ensures e in Inserted(timers, e0) <==> Indexed(h', q', e) {
      if e.1 < UINTPTR_MAX && e.1 in h { assert Owned(h, q, e.1); }
    }
    forall p: (Address, Sequence) ensures p in active + {p0} <==> Known(h', q', p) {
      if p.0 in h { assert Owned(h, q, p.0); }
    }
  }

  /** A step that changes no timer but `s`, neither creates nor frees one, and moves none in time. */
  lemma HeapUnchanged(h: Heap, q: Queue, q': Queue)
    requires HeapMatches(h, q) && q'.timers.Keys == q.timers.Keys
    requires forall s :: s in q.timers ==> q'.timers[s] == q.timers[s].(where := q'.timers[s].where)
    requires forall s :: s in q.timers ==> (q.timers[s].where == Freed <==> q'.timers[s].where == Freed)
    ensures HeapMatches(h, q')
  {
    forall x | x in h ensures Owned(h, q', x) {
      assert Owned(h, q, x);
    }
    forall x | x in q'.timers && q'.timers[x].where != Freed ensures Allocated(h, q', x) {
      assert Allocated(h, q, x);
    }
  }

  lemma AddRepresents(timers: seq<Entry>, active: IdSet, canceling: IdSet, expired: seq<Entry>, h: Heap, q: Queue, a: Address)
    requires Represents(timers, active, canceling, expired, h, q) && Inv(q)
    requires a in h && Owned(h, q, a) && q.timers[h[a].sequence].where == PendingAdd
    ensures (h[a].expiration, a) !in timers && (a, h[a].sequence) !in active
    ensures Represents(Inserted(timers, (h[a].expiration, a)), active + {(a, h[a].sequence)}, canceling, expired, h,
                       Step(q, Add(h[a].sequence)))
  {
    hide HeapMatches, IndexesMatch, Coherent;
    var s := h[a].sequence;
    StepKeepsInv(q, Add(s));
    var q' := Step(q, Add(s));
    InsertRepresents(timers, active, h, q, h, q', a);
    HeapUnchanged(h, q, q');
  }

  lemma FreeHeap(h: Heap, q: Queue, q': Queue, a: Address)
    requires Coherent(q) && HeapMatches(h, q) && a in h && q'.timers.Keys == q.timers.Keys
    requires forall s :: s in q.timers && s != h[a].sequence ==> q'.timers[s] == q.timers[s]
    requires h[a].sequence in q.timers ==> q'.timers[h[a].sequence].where == Freed
    ensures HeapMatches(h - {a}, q')
  {
    var h' := h - {a};
    assert Owned(h, q, a);
    forall x | x in q.timers && q.timers[x].where != Freed && q.timers[x].address == a ensures x == h[a].sequence {
      assert Share(q.timers[x], q.timers[h[a].sequence]);
    }
    forall x | x in h' ensures Owned(h', q', x) {
      assert Owned(h, q, x);
    }
    forall x | x in q'.timers && q'.timers[x].where != Freed ensures Allocated(h', q', x) {
      assert Allocated(h, q, x);
    }
  }

  lemma CancelActiveIndexes(timers: seq<Entry>, active: IdSet, h: Heap, q: Queue, q': Queue, a: Address, s: Sequence)
    requires Coherent(q) && HeapMatches(h, q) && IndexesMatch(timers, active, h, q) && (a, s) in active
    requires forall x :: IsActive(q', x) <==> IsActive(q, x) && x != s
    ensures a in h && h[a].sequence == s && (h[a].expiration, a) in timers
    ensures IndexesMatch(Erased(timers, (h[a].expiration, a)), active - {(a, s)}, h - {a}, q')
  {
    assert Known(h, q, (a, s));
    var e0 := (h[a].expiration, a as nat);
    assert Owned(h, q, a) && Indexed(h, q, e0);
    ErasedIsSorted(timers, e0);
    var h' := h - {a};
    forall e: Entry ensures e in Erased(timers, e0) <==> Indexed(h', q', e) {
      if e.1 < UINTPTR_MAX && e.1 in h { assert Owned(h, q, e.1); }
    }
    forall p: (Address, Sequence) ensures p in active - {(a, s)} <==> Known(h', q', p) {
      if p.0 in h { assert Owned(h, q, p.0); }
    }
  }

  lemma CancelActiveBatch(canceling: IdSet, expired: seq<Entry>, h: Heap, q: Queue, a: Address, s: Sequence)
    requires Inv(q) && HeapMatches(h, q) && BatchMatches(expired, canceling, h, q)
    requires a in h && h[a].sequence == s && IsActive(q, s)
    ensures BatchMatches(expired, canceling, h - {a}, Step(q, Cancel(a, s)))
  {
    assert Owned(h, q, a);
    forall i | 0 <= i < |expired| ensures InBatch(h - {a}, expired[i], q.batch[i]) {
      assert InBatch(h, expired[i], q.batch[i]) && q.batch[i] in q.batch;
    }
  }

  /** Cancelling an active timer: it leaves both indexes and the heap. */
  lemma CancelActiveRepresents(timers: seq<Entry>, active: IdSet, canceling: IdSet, expired: seq<Entry>, h: Heap, q: Queue,
                               a: Address, s: Sequence)
    requires Represents(timers, active, canceling, expired, h, q) && Inv(q) && (a, s) in active
    ensures a in h && (h[a].expiration, a) in timers
    ensures Represents(Erased(timers, (h[a].expiration, a)), active - {(a, s)}, canceling, expired, h - {a},
                       Step(q, Cancel(a, s)))
  {
    assert Known(h, q, (a, s)) && Owned(h, q, a);
    hide HeapMatches, IndexesMatch, BatchMatches, Coherent;
    StepKeepsInv(q, Cancel(a, s));
    var q' := Step(q, Cancel(a, s));
    CancelActiveIndexes(timers, active, h, q, q', a, s);
    CancelActiveBatch(canceling, expired, h, q, a, s);
    FreeHeap(h, q, q', a);
  }

  lemma NotActive(timers: seq<Entry>, active: IdSet, h: Heap, q: Queue, a: Address, s: Sequence)
    requires HeapMatches(h, q) && IndexesMatch(timers, active, h, q) && (a, s) !in active
    ensures !(s in q.timers && q.timers[s].address == a && q.timers[s].where == Active)
  {
    if s in q.timers && q.timers[s].address == a && q.timers[s].where == Active {
      assert Allocated(h, q, s);
      assert Known(h, q, (a, s));
    }
  }

  lemma SameIndexes(timers: seq<Entry>, active: IdSet, h: Heap, q: Queue, q': Queue)
    requires IndexesMatch(timers, active, h, q)
    requires forall x :: IsActive(q', x) <==> IsActive(q, x)
    ensures IndexesMatch(timers, active, h, q')
  {
    assert forall e :: Indexed(h, q', e) <==> Indexed(h, q, e);
    assert forall p :: Known(h, q', p) <==> Known(h, q, p);
  }

  /** Cancelling anything else while callbacks run: only the set of cancellations grows. */
  lemma CancelOtherRepresents(timers: seq<Entry>, active: IdSet, canceling: IdSet, expired: seq<Entry>, h: Heap, q: Queue,
                              a: Address, s: Sequence)
    requires Represents(timers, active, canceling, expired, h, q) && Inv(q) && (a, s) !in active
    ensures Represents(timers, active, if q.calling then canceling + {(a, s)} else canceling, expired, h,
                       Step(q, Cancel(a, s)))
  {
    hide HeapMatches, IndexesMatch;
    StepKeepsInv(q, Cancel(a, s));
    var q' := Step(q, Cancel(a, s));
    NotActive(timers, active, h, q, a, s);
    SameIndexes(timers, active, h, q, q');
    HeapUnchanged(h, q, q');
    forall x | x in q'.timers && q'.timers[x].where.Expired?
      ensures q'.timers[x].where.cancelled <==>
              (q'.timers[x].address, x) in if q.calling then canceling + {(a, s)} else canceling
    {
      assert x in q.batch;
    }
  }

  lemma RunRepresents(timers: seq<Entry>, active: IdSet, canceling: IdSet, expired: seq<Entry>, h: Heap, q: Queue)
    requires Represents(timers, active, canceling, expired, h, q) && Inv(q) && q.calling && q.next < |expired|
    ensures |expired| == |q.batch| && InBatch(h, expired[q.next], q.batch[q.next])
    ensures Represents(timers, active, canceling, expired, h, Step(q, RunNext))
  {
    var q' := Step(q, RunNext);
    SameIndexes(timers, active, h, q, q');
    HeapUnchanged(h, q, q');
  }

  /** The id under which an entry's timer is known. */
  function IdOf(h: Heap, e: Entry): (Address, Sequence)
    requires e.1 < UINTPTR_MAX && e.1 in h
  {
    (e.1, h[e.1].sequence)
  }

  lemma ExpiredPrefix(timers: seq<Entry>, active: IdSet, h: Heap, q: Queue, now: Time, k: nat)
    requires Coherent(q) && HeapMatches(h, q) && IndexesMatch(timers, active, h, q)
    requires k == LowerBound(timers, (now, UINTPTR_MAX))
    ensures forall e :: e in timers ==> e.1 < UINTPTR_MAX && e.1 in h
    ensures forall i :: 0 <= i < |timers| ==> (timers[i].0 <= now <==> i < k) && timers[i].0 == h[timers[i].1].expiration
    ensures forall i :: 0 <= i < |timers| ==> IdOf(h, timers[i]) in active
    ensures forall i, j :: 0 <= i < j < |timers| ==> IdOf(h, timers[i]) != IdOf(h, timers[j])
  {
    forall i | 0 <= i < |timers|
      ensures timers[i].1 < UINTPTR_MAX && timers[i].1 in h && IdOf(h, timers[i]) in active
      ensures (timers[i].0 <= now <==> i < k) && timers[i].0 == h[timers[i].1].expiration
    {
      assert timers[i] in timers && Indexed(h, q, timers[i]);
      assert Known(h, q, IdOf(h, timers[i]));
      if k < i { assert Less(timers[k], timers[i]); }
    }
    forall i, j | 0 <= i < j < |timers| ensures IdOf(h, timers[i]) != IdOf(h, timers[j]) {
      assert timers[i] in timers && timers[j] in timers && Less(timers[i], timers[j]);
      assert Indexed(h, q, timers[i]) && Indexed(h, q, timers[j]);
    }
  }

  function SequencesOf(h: Heap, es: seq<Entry>): (r: seq<Sequence>)
    requires forall e :: e in es ==> e.1 < UINTPTR_MAX && e.1 in h
    ensures |r| == |es| && forall i :: 0 <= i < |es| ==> r[i] == h[es[i].1].sequence
  {
    seq(|es|, i requires 0 <= i < |es| => assert es[i] in es; h[es[i].1].sequence)
  }

  lemma DueIsExpired(timers: seq<Entry>, active: IdSet, h: Heap, q: Queue, now: Time, k: nat, s: Sequence)
    requires Coherent(q) && HeapMatches(h, q) && IndexesMatch(timers, active, h, q)
    requires k == LowerBound(timers, (now, UINTPTR_MAX))
    requires forall e :: e in timers[..k] ==> e.1 < UINTPTR_MAX && e.1 in h
    requires s in q.timers && IsDue(q.timers[s], now)
    ensures s in SequencesOf(h, timers[..k])
  {
    ExpiredPrefix(timers, active, h, q, now, k);
    var due := SequencesOf(h, timers[..k]);
    assert Allocated(h, q, s);
    var e := (q.timers[s].expiration, q.timers[s].address as nat);
    assert Indexed(h, q, e);
    var i :| 0 <= i < |timers| && timers[i] == e;
    assert due[i] == s;
  }

  lemma ExpiredIsDue(timers: seq<Entry>, active: IdSet, h: Heap, q: Queue, now: Time, k: nat)
    requires Coherent(q) && HeapMatches(h, q) && IndexesMatch(timers, active, h, q)
    requires k == LowerBound(timers, (now, UINTPTR_MAX))
    requires forall e :: e in timers[..k] ==> e.1 < UINTPTR_MAX && e.1 in h
    ensures IsDueList(q.timers, now, SequencesOf(h, timers[..k]))
  {
    ExpiredPrefix(timers, active, h, q, now, k);
    var due := SequencesOf(h, timers[..k]);
    forall i | 0 <= i < k
      ensures due[i] in q.timers && IsDue(q.timers[due[i]], now)
      ensures timers[i] == (q.timers[due[i]].expiration, q.timers[due[i]].address as nat)
    {
      assert timers[i] in timers && Indexed(h, q, timers[i]);
      assert Owned(h, q, timers[i].1) && Allocated(h, q, due[i]);
    }
    forall s | s in q.timers && IsDue(q.timers[s], now) ensures s in due {
      DueIsExpired(timers, active, h, q, now, k, s);
    }
    forall i, j | 0 <= i < j < |due| ensures Before(q.timers[due[i]], q.timers[due[j]]) {
      assert Less(timers[i], timers[j]);
    }
  }

  /** `later` is `active` without the ids of the first `k` entries. */
  ghost predicate Without(active: IdSet, later: IdSet, timers: seq<Entry>, k: nat, h: Heap, now: Time)
    requires k <= |timers| && forall e :: e in timers ==> e.1 < UINTPTR_MAX && e.1 in h
  {
    && later <= active
    && |later| == |active| - k
    && (forall i :: 0 <= i < k ==> IdOf(h, timers[i]) !in later)
    && (forall p :: p in active && p.0 in h && h[p.0].expiration > now ==> p in later)
  }

  lemma ExpireByTime(timers: seq<Entry>, active: IdSet, h: Heap, q: Queue, now: Time, k: nat, q': Queue, e: Entry)
    requires Coherent(q) && HeapMatches(h, q) && IndexesMatch(timers, active, h, q)
    requires k == LowerBound(timers, (now, UINTPTR_MAX))
    requires forall s :: IsActive(q', s) <==> IsActive(q, s) && q.timers[s].expiration > now
    ensures e in timers[k..] <==> Indexed(h, q', e)
  {
    ExpiredPrefix(timers, active, h, q, now, k);
    if Indexed(h, q, e) {
      assert Allocated(h, q, h[e.1].sequence) && Owned(h, q, e.1);
      var i :| 0 <= i < |timers| && timers[i] == e;
      assert i >= k ==> timers[k..][i - k] == e;
    }
  }

  lemma ExpireById(timers: seq<Entry>, active: IdSet, h: Heap, q: Queue, now: Time, k: nat, later: IdSet, q': Queue, p: (Address, Sequence))
    requires Coherent(q) && HeapMatches(h, q) && IndexesMatch(timers, active, h, q)
    requires k == LowerBound(timers, (now, UINTPTR_MAX))
    requires (forall e :: e in timers ==> e.1 < UINTPTR_MAX && e.1 in h) && Without(active, later, timers, k, h, now)
    requires forall s :: IsActive(q', s) <==> IsActive(q, s) && q.timers[s].expiration > now
    ensures p in later <==> Known(h, q', p)
  {
    ExpiredPrefix(timers, active, h, q, now, k);
    if Known(h, q, p) {
      assert Owned(h, q, p.0) && Allocated(h, q, p.1);
      var e := (h[p.0].expiration, p.0 as nat);
      assert Indexed(h, q, e);
      var i :| 0 <= i < |timers| && timers[i] == e;
      assert IdOf(h, timers[i]) == p;
    }
  }

  lemma ExpireIndexes(timers: seq<Entry>, active: IdSet, h: Heap, q: Queue, now: Time, k: nat, later: IdSet, q': Queue)
    requires Coherent(q) && HeapMatches(h, q) && IndexesMatch(timers, active, h, q)
    requires k == LowerBound(timers, (now, UINTPTR_MAX))
    requires (forall e :: e in timers ==> e.1 < UINTPTR_MAX && e.1 in h) && Without(active, later, timers, k, h, now)
    requires forall s :: IsActive(q', s) <==> IsActive(q, s) && q.timers[s].expiration > now
    ensures IndexesMatch(timers[k..], later, h, q')
  {
    hide HeapMatches, Coherent, Indexed, Known, IsActive;
    forall e: Entry ensures e in timers[k..] <==> Indexed(h, q', e) {
      ExpireByTime(timers, active, h, q, now, k, q', e);
    }
    forall p: (Address, Sequence) ensures p in later <==> Known(h, q', p) {
      ExpireById(timers, active, h, q, now, k, later, q', p);
    }
  }

  lemma ExpireBatch(timers: seq<Entry>, h: Heap, q: Queue, now: Time, k: nat)
    requires Inv(q) && !q.calling && k <= |timers| && (forall e :: e in timers ==> e.1 < UINTPTR_MAX && e.1 in h)
    requires Enabled(q, Expire(now, SequencesOf(h, timers[..k])))
    ensures BatchMatches(timers[..k], {}, h, Step(q, Expire(now, SequencesOf(h, timers[..k]))))
  {
    hide IsDueList;
    assert forall i :: 0 <= i < k ==> timers[..k][i] in timers;
    assert forall s :: s in q.timers && q.timers[s].where.Expired? ==> s in q.batch;
  }

  lemma ExpireRepresents(timers: seq<Entry>, active: IdSet, canceling: IdSet, expired: seq<Entry>, h: Heap, q: Queue,
                         now: Time, k: nat, active': IdSet)
    requires Represents(timers, active, canceling, expired, h, q) && Inv(q) && !q.calling
    requires k == LowerBound(timers, (now, UINTPTR_MAX))
    requires forall e :: e in timers ==> e.1 < UINTPTR_MAX && e.1 in h
    requires Without(active, active', timers, k, h, now)
    ensures Enabled(q, Expire(now, SequencesOf(h, timers[..k])))
    ensures Represents(timers[k..], active', {}, timers[..k], h, Step(q, Expire(now, SequencesOf(h, timers[..k]))))
  {
    hide HeapMatches, IndexesMatch, BatchMatches, IsDueList;
    ExpiredIsDue(timers, active, h, q, now, k);
    var due := SequencesOf(h, timers[..k]);
    ExpireKeepsInv(q, now, due);
    var q' := Step(q, Expire(now, due));
    ExpireIndexes(timers, active, h, q, now, k, active', q');
    HeapUnchanged(h, q, q');
    ExpireBatch(timers, h, q, now, k);
  }

  /** One turn of the loop in `reset`, on the model. */
  function SettledHead(q: Queue, now: Time): Queue
    requires q.batch != [] && q.batch[0] in q.timers
  {
    q.(timers := q.timers[q.batch[0] := Settled(q.timers[q.batch[0]], now)], batch := q.batch[1..])
  }

  lemma SettledHeadIsCoherent(q: Queue, now: Time)
    requires Coherent(q) && q.batch != [] && q.batch[0] in q.timers
    ensures Coherent(SettledHead(q, now))
  {
    var q' := SettledHead(q, now);
    assert q.batch == [q.batch[0]] + q.batch[1..];
    forall s, s' | s in q'.timers && s' in q'.timers && Share(q'.timers[s], q'.timers[s']) ensures s == s' {
      assert q.batch[0] in q.batch;
      assert Share(q.timers[s], q.timers[s']);
    }
  }

  lemma HeadOfBatch(timers: seq<Entry>, active: IdSet, canceling: IdSet, expired: seq<Entry>, h: Heap, q: Queue)
    requires Represents(timers, active, canceling, expired, h, q) && expired != []
    ensures q.batch != [] && q.batch[0] in q.timers && expired[0].1 < UINTPTR_MAX && expired[0].1 in h
    ensures h[expired[0].1] == Stored(q.timers[q.batch[0]], q.batch[0]) && q.timers[q.batch[0]].address == expired[0].1
    ensures q.timers[q.batch[0]].where == Expired((expired[0].1 as Address, q.batch[0]) in canceling)
  {
    assert InBatch(h, expired[0], q.batch[0]) && q.batch[0] in q.batch;
    assert Owned(h, q, expired[0].1) && Allocated(h, q, q.batch[0]);
  }

  lemma FreeIndexes(timers: seq<Entry>, active: IdSet, h: Heap, q: Queue, q': Queue, a: Address)
    requires HeapMatches(h, q) && IndexesMatch(timers, active, h, q) && a in h && !IsActive(q, h[a].sequence)
    requires forall x :: IsActive(q', x) <==> IsActive(q, x)
    ensures IndexesMatch(timers, active, h - {a}, q')
  {
    var h' := h - {a};
    forall e: Entry ensures Indexed(h', q', e) <==> Indexed(h, q, e) {
    }
    forall p: (Address, Sequence) ensures Known(h', q', p) <==> Known(h, q, p) {
    }
  }

  lemma SettledBatch(canceling: IdSet, expired: seq<Entry>, h: Heap, q: Queue, h': Heap, now: Time)
    requires Coherent(q) && BatchMatches(expired, canceling, h, q) && expired != [] && q.batch[0] in q.timers
    requires expired[0].1 < UINTPTR_MAX
    requires forall a :: a in h && a != expired[0].1 ==> a in h' && h'[a] == h[a]
    requires forall i :: 0 < i < |expired| ==> expired[i].1 != expired[0].1
    ensures BatchMatches(expired[1..], canceling, h', SettledHead(q, now))
  {
    forall i | 0 <= i < |expired[1..]| ensures InBatch(h', expired[1..][i], q.batch[1..][i]) {
      assert InBatch(h, expired[i + 1], q.batch[i + 1]);
    }
  }

  lemma HeadIsAlone(canceling: IdSet, expired: seq<Entry>, h: Heap, q: Queue)
    requires Coherent(q) && BatchMatches(expired, canceling, h, q) && expired != []
    ensures forall i :: 0 < i < |expired| ==> expired[i].1 != expired[0].1
  {
    forall i | 0 < i < |expired| ensures expired[i].1 != expired[0].1 {
      assert InBatch(h, expired[0], q.batch[0]) && InBatch(h, expired[i], q.batch[i]);
    }
  }

  /** The head of the batch is freed. */
  lemma FreeRepresents(timers: seq<Entry>, active: IdSet, canceling: IdSet, expired: seq<Entry>, h: Heap, q: Queue, now: Time)
    requires Represents(timers, active, canceling, expired, h, q) && expired != []
    requires q.batch != [] && q.batch[0] in q.timers
    requires !(q.timers[q.batch[0]].repeat && q.timers[q.batch[0]].where == Expired(false))
    ensures expired[0].1 < UINTPTR_MAX && expired[0].1 in h
    ensures Represents(timers, active, canceling, expired[1..], h - {expired[0].1}, SettledHead(q, now))
  {
    hide HeapMatches, IndexesMatch, BatchMatches, Coherent;
    HeadOfBatch(timers, active, canceling, expired, h, q);
    HeadIsAlone(canceling, expired, h, q);
    SettledHeadIsCoherent(q, now);
    var q', a := SettledHead(q, now), expired[0].1;
    FreeHeap(h, q, q', a);
    FreeIndexes(timers, active, h, q, q', a);
    SettledBatch(canceling, expired, h, q, h - {a}, now);
  }

  lemma RestartHeap(h: Heap, q: Queue, now: Time, a: Address)
    requires Coherent(q) && HeapMatches(h, q) && q.batch != [] && a in h && h[a].sequence == q.batch[0]
    requires q.batch[0] in q.timers && q.timers[q.batch[0]].repeat && q.timers[q.batch[0]].where == Expired(false)
    ensures HeapMatches(h[a := h[a].(expiration := now + h[a].interval)], SettledHead(q, now))
  {
    assert Owned(h, q, a) && Allocated(h, q, q.batch[0]);
    var q' := SettledHead(q, now);
    var h' := h[a := h[a].(expiration := now + h[a].interval)];
    forall x | x in h' ensures Owned(h', q', x) {
      assert Owned(h, q, x);
    }
    forall x | x in q'.timers && q'.timers[x].where != Freed ensures Allocated(h', q', x) {
      assert Allocated(h, q, x);
    }
  }

  /** The head of the batch is restarted and queued again. */
  lemma RestartRepresents(timers: seq<Entry>, active: IdSet, canceling: IdSet, expired: seq<Entry>, h: Heap, q: Queue,
                          now: Time, a: Address, h': Heap)
    requires Represents(timers, active, canceling, expired, h, q) && q.batch != []
    requires q.batch[0] in q.timers && q.timers[q.batch[0]].repeat && q.timers[q.batch[0]].where == Expired(false)
    requires expired != [] && expired[0].1 == a && a in h
    requires h' == h[a := h[a].(expiration := now + h[a].interval)]
    ensures (h'[a].expiration, a) !in timers && (a, h[a].sequence) !in active
    ensures Represents(Inserted(timers, (h'[a].expiration, a)), active + {(a, h[a].sequence)}, canceling,
                       expired[1..], h', SettledHead(q, now))
  {
    hide HeapMatches, IndexesMatch, BatchMatches, Coherent;
    HeadOfBatch(timers, active, canceling, expired, h, q);
    HeadIsAlone(canceling, expired, h, q);
    SettledHeadIsCoherent(q, now);
    RestartHeap(h, q, now, a);
    var q' := SettledHead(q, now);
    InsertRepresents(timers, active, h, q, h', q', a);
    SettledBatch(canceling, expired, h, q, h', now);
  }

  // ----- the queue object

  class TimerQueue {
    const test: TimerAlarm.Test           // as written, or the right way round
    var timers: seq<Entry>                // timers_
    var activeTimers: IdSet               // activeTimers_
    var cancelingTimers: IdSet            // cancelingTimers_
    var callingExpiredTimers: bool
    var expired: seq<Entry>               // handleRead's vector
    var next: nat                         // handleRead's position in it
    var heap: Heap                        // the Timer objects currently allocated
    var numCreated: nat                   // Timer::s_numCreated_
    var armed: Option<Time>               // what the timerfd was last set to
    ghost var model: Queue

    ghost predicate Valid()
      reads this
    {
      && Represents(timers, activeTimers, cancelingTimers, expired, heap, model)
      && Inv(model)
      && callingExpiredTimers == model.calling
      && next == model.next
      && numCreated == model.created
    }

    /** The alarm and what it is for. */
    ghost function Alarm(): TimerAlarm.Alarm
      reads this
    {
      TimerAlarm.Alarm(timers, armed, callingExpiredTimers)
    }

    constructor (test: TimerAlarm.Test)
      ensures Valid() && model == EMPTY && Alarm() == TimerAlarm.IDLE && this.test == test
    {
      this.test := test;
      timers, activeTimers, cancelingTimers, callingExpiredTimers := [], {}, {}, false;
      expired, next, heap, numCreated, armed, model := [], 0, map[], 0, None, EMPTY;
    }

    /** `new Timer(...)` at an address the allocator may hand out; the result is the TimerId. */
    method CreateTimer(address: Address, when: Time, repeat: bool, interval: nat) returns (id: (Address, Sequence))
      requires Valid() && address !in heap
      modifies this
      ensures Valid() && old(Enabled(model, Create(address, when, repeat, interval)))
      ensures model == Step(old(model), Create(address, when, repeat, interval))
      ensures id == (address, model.created) && Alarm() == old(Alarm())
    {
      hide HeapMatches, IndexesMatch, BatchMatches, Coherent, Live;
      ghost var act := Create(address, when, repeat, interval);
      CreateRepresents(timers, activeTimers, cancelingTimers, expired, heap, model, act);
      StepKeepsInv(model, act);
      model := Step(model, act);
      numCreated := numCreated + 1;
      heap := heap[address := Object(when, repeat, interval, numCreated)];
      id := (address, numCreated);
    }

    method Insert(address: Address) returns (earliestChanged: bool)
      requires address in heap && |timers| == |activeTimers|
      requires (heap[address].expiration, address) !in timers
      requires (address, heap[address].sequence) !in activeTimers
      modifies this`timers, this`activeTimers
      ensures timers == Inserted(old(timers), (heap[address].expiration, address))
      ensures activeTimers == old(activeTimers) + {(address, heap[address].sequence)}
      ensures |timers| == |activeTimers|
      ensures earliestChanged == TimerAlarm.Arms(test, old(timers), heap[address].expiration)
    {
      var when := heap[address].expiration;
      earliestChanged := timers == [] || if test == TimerAlarm.AsWritten then when > timers[0].0 else when < timers[0].0;
      timers := Inserted(timers, (when, address));
      activeTimers := activeTimers + {(address, heap[address].sequence)};
    }

    /** Runs the functor that addTimer posted with the timer's address. */
    method AddTimerInLoop(address: Address)
      requires Valid() && address in heap
      requires Owned(heap, model, address) && model.timers[heap[address].sequence].where == PendingAdd
      modifies this
      ensures Valid() && model == Step(old(model), Add(old(heap[address].sequence)))
      ensures var added := TimerAlarm.Added((old(heap[address].expiration), address));
              TimerAlarm.Enabled(old(Alarm()), added) && Alarm() == TimerAlarm.Step(test, old(Alarm()), added)
    {
      hide HeapMatches, IndexesMatch, BatchMatches, Coherent;
      SizesAgree(timers, activeTimers, heap, model);
      AddRepresents(timers, activeTimers, cancelingTimers, expired, heap, model, address);
      StepKeepsInv(model, Add(heap[address].sequence));
      var earliestChanged := Insert(address);
      model := Step(model, Add(heap[address].sequence));
      if earliestChanged {
        armed := Some(heap[address].expiration);
      }
    }

    /** Any id may be cancelled, issued or not, stale or not; it is dereferenced only if active. */
    method CancelInLoop(address: Address, sequence: Sequence)
      requires Valid()
      modifies this
      ensures Valid() && model == Step(old(model), Cancel(address, sequence))
      ensures if (address, sequence) !in old(activeTimers) then Alarm() == old(Alarm())
              else address in old(heap)
                   && var cancelled := TimerAlarm.Cancelled((old(heap)[address].expiration, address));
                      TimerAlarm.Enabled(old(Alarm()), cancelled) && Alarm() == TimerAlarm.Step(test, old(Alarm()), cancelled)
    {
      hide HeapMatches, IndexesMatch, BatchMatches, Coherent;
      StepKeepsInv(model, Cancel(address, sequence));
      if (address, sequence) in activeTimers {
        CancelActiveRepresents(timers, activeTimers, cancelingTimers, expired, heap, model, address, sequence);
        timers := Erased(timers, (heap[address].expiration, address));
        heap := heap - {address};
        activeTimers := activeTimers - {(address, sequence)};
      } else {
        CancelOtherRepresents(timers, activeTimers, cancelingTimers, expired, heap, model, address, sequence);
        if callingExpiredTimers {
          cancelingTimers := cancelingTimers + {(address, sequence)};
        }
      }
      model := Step(model, Cancel(address, sequence));
    }

    /** Takes everything up to the sentry out of both indexes. */
    method GetExpired(now: Time) returns (due: seq<Entry>)
      requires Valid()
      modifies this`timers, this`activeTimers
      ensures var k := LowerBound(old(timers), (now, UINTPTR_MAX));
              due == old(timers)[..k] && timers == old(timers)[k..]
      ensures forall e :: e in due <==> e in old(timers) && e.0 <= now
      ensures forall e :: e in old(timers) ==> e.1 < UINTPTR_MAX && e.1 in heap
      ensures Without(old(activeTimers), activeTimers, old(timers), |due|, heap, now)
      ensures |activeTimers| == |timers|
    {
      hide HeapMatches, IndexesMatch, BatchMatches, Coherent;
      var end := LowerBound(timers, (now, UINTPTR_MAX));
      ExpiredPrefix(timers, activeTimers, heap, model, now, end);
      SizesAgree(timers, activeTimers, heap, model);
      due, timers := timers[..end], timers[end..];
      for i := 0 to |due|
        invariant timers == old(timers)[end..]
        invariant Without(old(activeTimers), activeTimers, old(timers), i, heap, now)
        invariant forall j :: i <= j < |due| ==> IdOf(heap, old(timers)[j]) in activeTimers
      {
        var id := IdOf(heap, due[i]);
        assert due[i] == old(timers)[i] && heap[id.0].expiration <= now;
        activeTimers := activeTimers - {id};
      }
    }

    /** Moves the due timers from the indexes to the batch. */
    method TakeExpired(now: Time) returns (ghost due: seq<Sequence>)
      requires Valid() && !callingExpiredTimers
      modifies this
      ensures Valid() && old(Enabled(model, Expire(now, due)))
      ensures model == Step(old(model), Expire(now, due))
      ensures armed == old(armed) && callingExpiredTimers && timers == old(timers)[LowerBound(old(timers), (now, UINTPTR_MAX))..]
    {
      hide HeapMatches, IndexesMatch, BatchMatches, Coherent, IsDueList;
      expired := GetExpired(now);
      next, callingExpiredTimers, cancelingTimers := 0, true, {};
      ExpireRepresents(old(timers), old(activeTimers), old(cancelingTimers), old(expired), heap, model, now, |expired|, activeTimers);
      due := SequencesOf(heap, expired);
      ExpireKeepsInv(model, now, due);
      model := Step(model, Expire(now, due));
    }

    /** The part of handleRead before the callbacks: the alarm has gone off, and is read. */
    method BeginHandleRead(now: Time) returns (ghost due: seq<Sequence>)
      requires Valid() && !callingExpiredTimers
      modifies this
      ensures Valid() && old(Enabled(model, Expire(now, due)))
      ensures model == Step(old(model), Expire(now, due))
      ensures now > 0 ==> TimerAlarm.Enabled(old(Alarm()), TimerAlarm.Fired(now))
                          && Alarm() == TimerAlarm.Step(test, old(Alarm()), TimerAlarm.Fired(now))
    {
      hide Represents, Inv, Step, Enabled, LowerBound;
      due := TakeExpired(now);
      armed := None;
    }

    /** Runs one callback: the timer is dereferenced, so it must not have been freed. */
    method RunNextCallback() returns (s: Sequence)
      requires Valid() && callingExpiredTimers && next < |expired|
      modifies this
      ensures Valid() && model == Step(old(model), TimerModel.RunNext) && Alarm() == old(Alarm())
      ensures s == old(model).batch[old(next)]
    {
      RunRepresents(timers, activeTimers, cancelingTimers, expired, heap, model);
      hide HeapMatches, IndexesMatch, BatchMatches, Coherent;
      s := heap[expired[next].1].sequence;
      StepKeepsInv(model, TimerModel.RunNext);
      model := Step(model, TimerModel.RunNext);
      next := next + 1;
    }

    /** One turn of the loop in `reset`. */
    method ResetOne(now: Time) returns (ghost again: seq<Entry>)
      requires Represents(timers, activeTimers, cancelingTimers, expired, heap, model) && expired != []
      modifies this`timers, this`activeTimers, this`expired, this`heap, this`model
      ensures Represents(timers, activeTimers, cancelingTimers, expired, heap, model)
      ensures old(model).batch != [] && old(model).batch[0] in old(model).timers
      ensures model == SettledHead(old(model), now) && |expired| == |old(expired)| - 1
      ensures if again == [] then timers == old(timers)
              else |again| == 1 && again[0].0 >= now && again[0] !in old(timers) && timers == Inserted(old(timers), again[0])
    {
      hide HeapMatches, IndexesMatch, BatchMatches, Coherent;
      HeadOfBatch(timers, activeTimers, cancelingTimers, expired, heap, model);
      SizesAgree(timers, activeTimers, heap, model);
      var address: Address := expired[0].1;
      var timer := heap[address];
      if timer.repeat && (address, timer.sequence) !in cancelingTimers {
        ghost var h' := heap[address := timer.(expiration := now + timer.interval)];
        RestartRepresents(timers, activeTimers, cancelingTimers, expired, heap, model, now, address, h');
        heap := heap[address := timer.(expiration := now + timer.interval)];
        var _ := Insert(address);
        again := [(heap[address].expiration, address)];
      } else {
        again := [];
        FreeRepresents(timers, activeTimers, cancelingTimers, expired, heap, model, now);
        heap := heap - {address};
      }
      model := SettledHead(model, now);
      expired := expired[1..];
    }

    /** Settles the batch, one timer after the other. */
    method SettleRest(now: Time, ghost q0: Queue) returns (ghost restarted: seq<Entry>)
      requires Represents(timers, activeTimers, cancelingTimers, expired, heap, model)
      requires |expired| == |model.batch| && Settling(q0, model, now)
      modifies this`timers, this`activeTimers, this`expired, this`heap, this`model
      ensures Represents(timers, activeTimers, cancelingTimers, expired, heap, model)
      ensures expired == [] && model.batch == [] && Settling(q0, model, now)
      ensures TimerAlarm.AllNew(old(timers), restarted) && timers == TimerAlarm.InsertAll(old(timers), restarted)
      ensures forall e :: e in restarted ==> e.0 >= now
    {
      restarted := [];
      assert timers == TimerAlarm.InsertAll(timers, restarted) && TimerAlarm.AllNew(timers, restarted);
      hide Settling, SettledHead, Represents, TimerAlarm.InsertAll, TimerAlarm.AllNew, Inserted;
      while expired != []
        invariant TimerAlarm.AllNew(old(timers), restarted) && timers == TimerAlarm.InsertAll(old(timers), restarted)
        invariant forall e :: e in restarted ==> e.0 >= now
        invariant Represents(timers, activeTimers, cancelingTimers, expired, heap, model)
        invariant |expired| == |model.batch| && Settling(q0, model, now)
        decreases |expired|
      {
        SettlingStep(q0, model, now);
        ghost var again := ResetOne(now);
        if again != [] {
          TimerAlarm.InsertAllAppend(old(timers), restarted, again[0]);
          restarted := restarted + [again[0]];
        }
      }
    }

    method SettleBatch(now: Time) returns (ghost restarted: seq<Entry>)
      requires Valid() && callingExpiredTimers && next == |expired|
      modifies this
      ensures Valid() && model == Step(old(model), Settle(now)) && armed == old(armed) && !callingExpiredTimers
      ensures TimerAlarm.AllNew(old(timers), restarted) && timers == TimerAlarm.InsertAll(old(timers), restarted)
      ensures forall e :: e in restarted ==> e.0 >= now
    {
      hide Represents, Inv, Step, Enabled, Settling, SettleAll, TimerAlarm.InsertAll, TimerAlarm.AllNew;
      ghost var q := model;
      ghost var q' := StartSettling(timers, activeTimers, cancelingTimers, expired, heap, q, now);
      callingExpiredTimers, next, model := false, 0, q';
      restarted := SettleRest(now, q);
      SettlingDone(q, model, now);
    }

    /** The part of handleRead after the callbacks. */
    method Reset(now: Time) returns (ghost restarted: seq<Entry>)
      requires Valid() && callingExpiredTimers && next == |expired|
      modifies this
      ensures Valid() && model == Step(old(model), Settle(now))
      ensures now > 0 ==> TimerAlarm.Enabled(old(Alarm()), TimerAlarm.Settled(restarted))
                          && Alarm() == TimerAlarm.Step(test, old(Alarm()), TimerAlarm.Settled(restarted))
    {
      hide Represents, Inv, Step, Enabled;
      restarted := SettleBatch(now);
      if timers != [] && timers[0].0 > 0 {
        armed := Some(timers[0].0);
      }
    }
  }

  /** Part of the batch has been settled, and settling the rest settles it all. */
  ghost predicate Settling(q0: Queue, q: Queue, now: Time) {
    && q == q0.(calling := false, next := 0, timers := q.timers, batch := q.batch)
    && (forall s :: s in q.batch ==> s in q.timers) && (forall s :: s in q0.batch ==> s in q0.timers)
    && SettleAll(q.timers, q.batch, now) == SettleAll(q0.timers, q0.batch, now)
  }

  lemma StartSettling(timers: seq<Entry>, active: IdSet, canceling: IdSet, expired: seq<Entry>, h: Heap, q: Queue, now: Time)
    returns (q': Queue)
    requires Represents(timers, active, canceling, expired, h, q) && Inv(q) && q.calling && q.next == |expired|
    ensures Enabled(q, Settle(now)) && Inv(Step(q, Settle(now)))
    ensures Represents(timers, active, canceling, expired, h, q') && Settling(q, q', now) && |expired| == |q'.batch|
  {
    q' := q.(calling := false, next := 0);
    BatchIsKnown(expired, canceling, h, q);
    SettleKeepsInv(q, now);
    RepresentsWithout(timers, active, canceling, expired, h, q);
    hide HeapMatches, IndexesMatch, BatchMatches, Coherent;
  }

  lemma SettlingStep(q0: Queue, q: Queue, now: Time)
    requires Settling(q0, q, now) && q.batch != []
    ensures q.batch[0] in q.timers
    ensures Settling(q0, SettledHead(q, now), now) && |SettledHead(q, now).batch| == |q.batch| - 1
  {
  }

  lemma SettlingDone(q0: Queue, q: Queue, now: Time)
    requires Settling(q0, q, now) && q.batch == [] && Inv(q0) && Enabled(q0, Settle(now))
    ensures q == Step(q0, Settle(now)) && !q.calling && q.next == 0 && q.created == q0.created
  {
  }
}
