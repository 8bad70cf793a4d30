/** The sharded memcached store: 4096 hash sets of items, updated under one of six policies, with a
    global counter that gives every stored item its own CAS token. */
module Memcache {
  import Bytes
  import opened Wrappers

  /** A complete item. A value has at least two bytes, which are meant to be a CRLF. */
  datatype Entry = Entry(key: string, flags: int, exptime: int, value: string, cas: nat)

  datatype Policy = Invalid | Set | Add | Replace | Append | Prepend | Cas

  predicate IsValue(value: string) { |value| >= 2 }

  predicate EndsWithCRLF(value: string) {
    |value| >= 2 && value[|value| - 2..] == Bytes.CRLF
  }

  // ----- one flat map

  datatype Store = Store(items: map<string, Entry>, cas: nat)

  /** The value that a client sees. */
  function Payload(e: Entry): string
    requires EndsWithCRLF(e.value)
  {
    e.value[..|e.value| - 2]
  }

  function Joined(front: string, back: string): string
    requires IsValue(front)
  {
    front[..|front| - 2] + back
  }

  /** Whether a policy lets an item in, given the item now under its key. */
  predicate Admits(policy: Policy, now: Option<Entry>, item: Entry) {
    match policy
    case Invalid => false
    case Set => true
    case Add => now.None?
    case Replace => now.Some?
    case Append => now.Some?
    case Prepend => now.Some?
    case Cas => now.Some? && now.value.cas == item.cas
  }

  function Lookup(s: Store, key: string): Option<Entry> {
    if key in s.items then Some(s.items[key]) else None
  }

  /** What is stored under a key when an item is let in. */
  function Merged(policy: Policy, now: Option<Entry>, item: Entry, cas: nat): Entry
    requires IsValue(item.value) && (now.Some? ==> IsValue(now.value.value))
  {
    if now.Some? && policy == Append then now.value.(key := item.key, value := Joined(now.value.value, item.value), cas := cas)
    else if now.Some? && policy == Prepend then now.value.(key := item.key, value := Joined(item.value, now.value.value), cas := cas)
    else item.(cas := cas)
  }

  predicate IsFiled(s: Store, key: string)
    requires key in s.items
  {
    s.items[key].key == key && IsValue(s.items[key].value) && 0 < s.items[key].cas <= s.cas
  }

  predicate Carries(s: Store, key: string, token: nat) {
    key in s.items && s.items[key].cas == token
  }

  /** Items are filed under their own keys, and no two share a token. */
  ghost predicate Inv(s: Store) {
    && (forall k {:trigger IsFiled(s, k)} :: k in s.items ==> IsFiled(s, k))
    && (forall j, k, t {:trigger Carries(s, j, t), Carries(s, k, t)} :: Carries(s, j, t) && Carries(s, k, t) ==> j == k)
  }

  datatype Action = StoreItem(item: Entry, policy: Policy) | GetItem(key: string) | DeleteItem(key: string)

  /** The assertions of storeItem: the item is complete, the policy is known, and what append and prepend build
      ends in CRLF. */
  predicate Enabled(s: Store, a: Action) {
    a.StoreItem? ==>
      && IsValue(a.item.value) && a.policy != Invalid
      && (a.policy == Append && a.item.key in s.items ==> EndsWithCRLF(a.item.value))
      && (a.policy == Prepend && a.item.key in s.items ==> EndsWithCRLF(s.items[a.item.key].value))
  }

  /** Whether a step changes what is stored under a key. */
  predicate Touches(s: Store, a: Action, key: string) {
    match a
    case StoreItem(item, policy) => item.key == key && Admits(policy, Lookup(s, key), item)
    case GetItem(_) => false
    case DeleteItem(k) => k == key && key in s.items
  }

  function Step(s: Store, a: Action): Store
    requires Inv(s) && Enabled(s, a)
  {
    match a
    case StoreItem(item, policy) =>
      var now := Lookup(s, item.key);
      assert now.Some? ==> IsFiled(s, item.key);
      if Admits(policy, now, item) then Store(s.items[item.key := Merged(policy, now, item, s.cas + 1)], s.cas + 1) else s
    case GetItem(_) => s
    case DeleteItem(key) => s.(items := s.items - {key})
  }

  /** What is joined ends as its second part does. */
  lemma JoinedEndsWithCRLF(front: string, back: string)
    requires IsValue(front) && IsValue(back)
    ensures IsValue(Joined(front, back)) && (EndsWithCRLF(Joined(front, back)) <==> EndsWithCRLF(back))
    ensures Joined(front, back)[..|Joined(front, back)| - 2] == front[..|front| - 2] + back[..|back| - 2]
  {
    var joined := Joined(front, back);
    assert joined[|joined| - 2..] == back[|back| - 2..];
  }

  lemma MergedIsFiled(policy: Policy, now: Option<Entry>, item: Entry, cas: nat)
    requires IsValue(item.value) && (now.Some? ==> IsValue(now.value.value))
    ensures var merged := Merged(policy, now, item, cas);
            && IsValue(merged.value) && merged.key == item.key && merged.cas == cas
            && (EndsWithCRLF(merged.value) <==>
                EndsWithCRLF(if now.Some? && policy == Prepend then now.value.value else item.value))
  {
    if now.Some? {
      JoinedEndsWithCRLF(item.value, now.value.value);
      JoinedEndsWithCRLF(now.value.value, item.value);
    }
    hide EndsWithCRLF, Joined;
  }

  /** Appending and prepending put the two payloads together, and keep flags and expiry. */
  lemma MergedPayload(policy: Policy, held: Entry, item: Entry, cas: nat)
    requires EndsWithCRLF(item.value) && EndsWithCRLF(held.value)
    ensures EndsWithCRLF(Merged(policy, Some(held), item, cas).value)
    ensures var merged := Merged(policy, Some(held), item, cas);
            match policy
            case Append => Payload(merged) == Payload(held) + Payload(item) && merged.flags == held.flags && merged.exptime == held.exptime
            case Prepend => Payload(merged) == Payload(item) + Payload(held) && merged.flags == held.flags && merged.exptime == held.exptime
            case _ => Payload(merged) == Payload(item) && merged.flags == item.flags && merged.exptime == item.exptime
  {
    JoinedEndsWithCRLF(item.value, held.value);
    JoinedEndsWithCRLF(held.value, item.value);
    hide Joined;
  }

  /** A step changes one key, and what it stores there has a new token. */
  lemma StepAt(s: Store, a: Action, key: string)
    requires Inv(s) && Enabled(s, a)
    ensures var s' := Step(s, a);
            && s.cas <= s'.cas
            && (!Touches(s, a, key) ==> Lookup(s', key) == Lookup(s, key))
            && (Touches(s, a, key) && key in s'.items ==> IsFiled(s', key) && s'.items[key].cas == s'.cas > s.cas)
  {
    if a.StoreItem? {
      assert a.item.key in s.items ==> IsFiled(s, a.item.key);
      MergedIsFiled(a.policy, Lookup(s, a.item.key), a.item, s.cas + 1);
    }
    hide Merged, EndsWithCRLF, Admits, IsValue;
  }

  lemma StepKeepsInv(s: Store, a: Action)
    requires Inv(s) && Enabled(s, a)
    ensures Inv(Step(s, a)) && s.cas <= Step(s, a).cas
  {
    hide Step, Enabled;
    var s' := Step(s, a);
    StepAt(s, a, []);
    forall k | k in s'.items ensures IsFiled(s', k) {
      StepAt(s, a, k);
      assert k in s.items ==> IsFiled(s, k);
    }
    forall j, k, t | Carries(s', j, t) && Carries(s', k, t) ensures j == k {
      StepAt(s, a, j);
      StepAt(s, a, k);
      assert j in s.items ==> IsFiled(s, j) && (Carries(s, j, t) || t != s.items[j].cas);
      assert k in s.items ==> IsFiled(s, k) && (Carries(s, k, t) || t != s.items[k].cas);
    }
  }

  // ----- the policies

  /** The value and the attributes stored, the token aside. */
  predicate Stores(e: Entry, value: string, attributes: Entry) {
    e.value == value && e.flags == attributes.flags && e.exptime == attributes.exptime
  }

  /** A store that takes place: the key holds the entry under the next token, and nothing else changes. */
  predicate Puts(s: Store, s': Store, key: string, value: string, attributes: Entry) {
    && s'.cas == s.cas + 1 && s'.items.Keys == s.items.Keys + {key}
    && Stores(s'.items[key], value, attributes) && s'.items[key].cas == s.cas + 1 && s'.items[key].key == key
    && forall k :: k in s.items && k != key ==> s'.items[k] == s.items[k]
  }

  lemma PutsMerged(s: Store, policy: Policy, now: Option<Entry>, item: Entry)
    requires IsValue(item.value) && (now.Some? ==> IsValue(now.value.value))
    ensures var m := Merged(policy, now, item, s.cas + 1);
            Puts(s, Store(s.items[item.key := m], s.cas + 1), item.key, m.value, if now.Some? && (policy == Append || policy == Prepend) then now.value else item)
  {
    hide Joined, IsValue;
  }

  /** set stores always, add exactly if the key is absent, replace exactly if it is present; what is stored is the
      item. If the store does not take place, nothing changes. */
  lemma SetAddReplace(s: Store, item: Entry, policy: Policy)
    requires Inv(s) && Enabled(s, StoreItem(item, policy)) && (policy == Set || policy == Add || policy == Replace)
    ensures var s' := Step(s, StoreItem(item, policy));
            if policy == Set || (policy == Add && item.key !in s.items) || (policy == Replace && item.key in s.items)
            then Puts(s, s', item.key, item.value, item) else s' == s
  {
    assert item.key in s.items ==> IsFiled(s, item.key);
    PutsMerged(s, policy, Lookup(s, item.key), item);
    hide Puts, IsValue, Joined;
  }

  /** cas stores exactly if the key is present under the token that the item carries. */
  lemma CheckAndSet(s: Store, item: Entry)
    requires Inv(s) && Enabled(s, StoreItem(item, Cas))
    ensures var s' := Step(s, StoreItem(item, Cas));
            if item.key in s.items && s.items[item.key].cas == item.cas
            then Puts(s, s', item.key, item.value, item) else s' == s
  {
    assert item.key in s.items ==> IsFiled(s, item.key);
    PutsMerged(s, Cas, Lookup(s, item.key), item);
    hide Puts, IsValue, Joined;
  }

  /** append and prepend store exactly if the key is present: what was held, without its last two bytes, in front
      of the item, or the item, without its last two bytes, in front of what was held. Flags and expiry stay. */
  lemma AppendPrepend(s: Store, item: Entry, policy: Policy)
    requires Inv(s) && Enabled(s, StoreItem(item, policy)) && (policy == Append || policy == Prepend)
    ensures var s' := Step(s, StoreItem(item, policy));
            if item.key !in s.items then s' == s
            else var held := s.items[item.key];
                 && |held.value| >= 2 && |item.value| >= 2
                 && Puts(s, s', item.key, if policy == Append then held.value[..|held.value| - 2] + item.value
                                          else item.value[..|item.value| - 2] + held.value, held)
  {
    assert item.key in s.items ==> IsFiled(s, item.key);
    PutsMerged(s, policy, Lookup(s, item.key), item);
    hide Puts;
  }

  /** delete takes the key out, and get changes nothing. */
  lemma DeleteGet(s: Store, key: string)
    requires Inv(s)
    ensures var s' := Step(s, DeleteItem(key));
            && s'.cas == s.cas && key !in s'.items && s'.items.Keys == s.items.Keys - {key}
            && forall k :: k in s.items && k != key ==> s'.items[k] == s.items[k]
    ensures Step(s, GetItem(key)) == s
  {
  }

  ghost predicate AllEndWithCRLF(s: Store) {
    forall k :: k in s.items ==> EndsWithCRLF(s.items[k].value)
  }

  /** If all stored items end in CRLF, they still do after a step exactly if it does not store an item that does
      not, other than by prepending it. */
  lemma StepEndsWithCRLF(s: Store, a: Action)
    requires Inv(s) && Enabled(s, a) && AllEndWithCRLF(s)
    ensures AllEndWithCRLF(Step(s, a)) <==>
            (a.StoreItem? && Touches(s, a, a.item.key) && a.policy != Prepend ==> EndsWithCRLF(a.item.value))
  {
    if a.StoreItem? {
      assert a.item.key in s.items ==> IsFiled(s, a.item.key);
      MergedIsFiled(a.policy, Lookup(s, a.item.key), a.item, s.cas + 1);
      var s' := Step(s, a);
      assert forall k :: k in s'.items && k != a.item.key ==> k in s.items && s'.items[k] == s.items[k];
      assert Touches(s, a, a.item.key) ==> a.item.key in s'.items;
    }
    hide Merged, EndsWithCRLF, IsValue;
  }

  lemma StoreStep(s: Store, e: Entry, policy: Policy)
    requires Inv(s) && Enabled(s, StoreItem(e, policy))
    ensures Lookup(s, e.key).Some? ==> IsValue(Lookup(s, e.key).value.value)
    ensures !Admits(policy, Lookup(s, e.key), e) ==> Step(s, StoreItem(e, policy)) == s
  {
    assert e.key in s.items ==> IsFiled(s, e.key);
  }

  /** `m` with the next token in the place of what its key had. */
  function PutInto(s: Store, m: Entry): Store {
    Store(s.items[m.key := m.(cas := s.cas + 1)], s.cas + 1)
  }

  /** `m` is what the policy makes of the item, the token aside. */
  predicate IsMerged(policy: Policy, now: Option<Entry>, e: Entry, m: Entry, cas: nat)
    requires IsValue(e.value) && (now.Some? ==> IsValue(now.value.value))
  {
    m.key == e.key && m.(cas := cas) == Merged(policy, now, e, cas)
  }

  lemma AdmittedStep(s: Store, e: Entry, policy: Policy, m: Entry)
    requires Inv(s) && Enabled(s, StoreItem(e, policy)) && Admits(policy, Lookup(s, e.key), e)
    requires Lookup(s, e.key).Some? ==> IsValue(Lookup(s, e.key).value.value)
    requires IsMerged(policy, Lookup(s, e.key), e, m, s.cas + 1)
    ensures Step(s, StoreItem(e, policy)) == PutInto(s, m) && PutInto(s, m).cas == s.cas + 1
  {
    hide Merged, Admits, EndsWithCRLF, Inv;
  }

  ghost predicate IsRun(s: Store, run: seq<Action>)
    requires Inv(s)
    decreases |run|
  {
    run == [] || (Enabled(s, run[0]) && (StepKeepsInv(s, run[0]); IsRun(Step(s, run[0]), run[1..])))
  }

  ghost function Final(s: Store, run: seq<Action>): (r: Store)
    requires Inv(s) && IsRun(s, run)
    ensures Inv(r) && s.cas <= r.cas
    decreases |run|
  {
    if run == [] then s else StepKeepsInv(s, run[0]); Final(Step(s, run[0]), run[1..])
  }

  /** If every item offered ends in CRLF, every item stored does, after any run. */
  lemma {:induction false} RunEndsWithCRLF(s: Store, run: seq<Action>)
    requires Inv(s) && IsRun(s, run) && AllEndWithCRLF(s)
    requires forall a :: a in run && a.StoreItem? ==> EndsWithCRLF(a.item.value)
    ensures AllEndWithCRLF(Final(s, run))
    decreases |run|
  {
    if run != [] {
      assert run[0] in run && forall a :: a in run[1..] ==> a in run;
      StepKeepsInv(s, run[0]);
      StepEndsWithCRLF(s, run[0]);
      RunEndsWithCRLF(Step(s, run[0]), run[1..]);
    }
    hide Inv, Step, Touches, Enabled, AllEndWithCRLF, EndsWithCRLF;
  }

  ghost predicate Untouched(s: Store, run: seq<Action>, key: string)
    requires Inv(s) && IsRun(s, run)
    decreases |run|
  {
    run == [] || (!Touches(s, run[0], key) && (StepKeepsInv(s, run[0]); Untouched(Step(s, run[0]), run[1..], key)))
  }

  // ----- tokens

  /** A step either leaves a key alone or makes every token given out so far stale for it. */
  lemma StepTokens(s: Store, a: Action, key: string, token: nat)
    requires Inv(s) && Enabled(s, a) && token <= s.cas
    ensures if Touches(s, a, key) then !Carries(Step(s, a), key, token)
            else Lookup(Step(s, a), key) == Lookup(s, key)
  {
    StepAt(s, a, key);
    hide Step, Enabled;
  }

  lemma {:induction false} RunTokens(s: Store, run: seq<Action>, key: string, token: nat)
    requires Inv(s) && IsRun(s, run) && token <= s.cas
    ensures Untouched(s, run, key) ==> Lookup(Final(s, run), key) == Lookup(s, key)
    ensures !Untouched(s, run, key) || !Carries(s, key, token) ==> !Carries(Final(s, run), key, token)
    decreases |run|
  {
    if run != [] {
      StepKeepsInv(s, run[0]);
      StepTokens(s, run[0], key, token);
      RunTokens(Step(s, run[0]), run[1..], key, token);
    }
    hide Inv, Step, Touches, Enabled;
  }

  /** A cas that carries the token a get returned succeeds exactly if nobody stored or deleted the key in
      between; the store still holds the very item that was read. */
  lemma CasSucceedsIffUntouched(s: Store, run: seq<Action>, item: Entry)
    requires Inv(s) && IsRun(s, run) && Carries(s, item.key, item.cas)
    ensures Touches(Final(s, run), StoreItem(item, Cas), item.key) <==> Untouched(s, run, item.key)
    ensures Untouched(s, run, item.key) ==> Lookup(Final(s, run), item.key) == Some(s.items[item.key])
  {
    assert IsFiled(s, item.key);
    RunTokens(s, run, item.key, item.cas);
  }

  /** Of any number of cas commands with the same token, at most one ever succeeds. */
  lemma CasSucceedsOnce(s: Store, first: Entry, s': Store, run: seq<Action>, second: Entry)
    requires Inv(s) && first.key == second.key && first.cas == second.cas
    requires IsValue(first.value) && Touches(s, StoreItem(first, Cas), first.key)
    requires s' == Step(s, StoreItem(first, Cas)) && Inv(s') && IsRun(s', run)
    ensures !Touches(Final(s', run), StoreItem(second, Cas), second.key)
  {
    assert IsFiled(s, first.key);
    StepTokens(s, StoreItem(first, Cas), first.key, first.cas);
    StepKeepsInv(s, StoreItem(first, Cas));
    RunTokens(s', run, first.key, first.cas);
  }

  // ----- the objects

  /** An item under construction: room for key and value, filled from the front. */
  class Item {
    const keylen: nat
    const flags: int
    const exptime: int
    const valuelen: nat
    const data: array<char>
    var received: nat
    var cas: nat

    ghost predicate Valid()
      reads this
    {
      received <= data.Length == keylen + valuelen && valuelen >= 2 && keylen <= received
    }

    ghost function Received(): string
      requires Valid()
      reads this, data
    {
      data[..received]
    }

    constructor (key: string, flags: int, exptime: int, valuelen: nat, cas: nat)
      requires valuelen >= 2
      ensures Valid() && fresh(data) && Received() == key && keylen == |key|
      ensures this.flags == flags && this.exptime == exptime && this.valuelen == valuelen && this.cas == cas
    {
      keylen, this.flags, this.exptime, this.valuelen, this.cas := |key|, flags, exptime, valuelen, cas;
      data := new char[|key| + valuelen](i requires 0 <= i < |key| + valuelen => if i < |key| then key[i] else 0 as char);
      received := |key|;
      new;
      assert data[..received] == key;
    }

    function NeededBytes(): nat
      requires Valid()
      reads this
    {
      data.Length - received
    }

    /** memcpy behind what has been received. */
    method Append(bytes: string)
      requires Valid() && |bytes| <= NeededBytes()
      modifies this`received, data
      ensures Valid() && Received() == old(Received()) + bytes
    {
      forall i | 0 <= i < |bytes| {
        data[received + i] := bytes[i];
      }
      received := received + |bytes|;
    }

    /** What the item says once it is complete. */
    function AsEntry(): Entry
      requires Valid() && NeededBytes() == 0
      reads this, data
    {
      Entry(data[..keylen], flags, exptime, data[keylen..], cas)
    }

    lemma SplitsAt(key: string, value: string)
      requires Valid() && NeededBytes() == 0 && Received() == key + value && keylen == |key|
      ensures AsEntry() == Entry(key, flags, exptime, value, cas)
    {
      assert data[..] == key + value;
    }

    /** endsWithCRLF, which is false of an incomplete item. */
    predicate IsTerminated()
      requires Valid()
      reads this, data
    {
      received == data.Length && data[data.Length - 2] == '\r' && data[data.Length - 1] == '\n'
    }

    lemma TerminatedEndsWithCRLF()
      requires Valid()
      ensures IsTerminated() <==> NeededBytes() == 0 && EndsWithCRLF(AsEntry().value)
    {
    }
  }

  lemma Replaced(items: map<string, Entry>, key: string, e: Entry)
    ensures (items - {key})[key := e] == items[key := e]
  {
  }

  const SHARDS := 4096

  class MemcacheServer {
    const hash: string -> nat
    const shards: array<map<string, Entry>>
    var gcas: nat
    ghost var flat: map<string, Entry>

    /** Each item sits in the shard of its key's hash, and nowhere else. */
    ghost predicate Sharded()
      reads this, shards
    {
      && shards.Length == SHARDS
      && (forall k :: k in flat <==> k in shards[Shard(k)])
      && (forall k :: k in flat ==> shards[Shard(k)][k] == flat[k])
      && (forall i, k :: 0 <= i < SHARDS && k in shards[i] ==> Shard(k) == i)
    }

    ghost predicate Valid()
      reads this, shards
    {
      Sharded() && Inv(Abs())
    }

    ghost function Abs(): Store
      reads this
    {
      Store(flat, gcas)
    }

    function Shard(key: string): (i: nat)
      ensures i == hash(key) % 4096 < SHARDS
    {
      hash(key) % SHARDS
    }

    constructor (hash: string -> nat)
      ensures Valid() && fresh(shards) && Abs() == Store(map[], 0) && this.hash == hash
    {
      this.hash := hash;
      shards := new map<string, Entry>[SHARDS](_ => map[]);
      gcas, flat := 0, map[];
    }

    method GetItem(key: string) returns (r: Option<Entry>)
      requires Valid()
      ensures r == Lookup(Abs(), key)
    {
      var items := shards[Shard(key)];
      r := if key in items then Some(items[key]) else None;
    }

    method Erase(key: string) returns (erased: bool)
      requires Sharded()
      modifies this`flat, shards
      ensures Sharded() && flat == old(flat) - {key} && erased == (key in old(flat))
    {
      erased := key in shards[Shard(key)];
      shards[Shard(key)] := shards[Shard(key)] - {key};
      flat := flat - {key};
    }

    /** Insertion into a hash set, which does nothing if the key is there. */
    method Insert(e: Entry)
      requires Sharded()
      modifies this`flat, shards
      ensures Sharded() && flat == if e.key in old(flat) then old(flat) else old(flat)[e.key := e]
    {
      var shard := Shard(e.key);
      if e.key !in shards[shard] {
        shards[shard] := shards[shard][e.key := e];
        flat := flat[e.key := e];
      }
    }

    /** Gives out a token and puts the item in the place of what its key had. */
    method Put(e: Entry, ghost target: Store)
      requires Sharded() && target == PutInto(Abs(), e)
      modifies this`flat, this`gcas, shards
      ensures Sharded() && Abs() == target
    {
      gcas := gcas + 1;
      assert Sharded();
      hide Sharded;
      Replaced(flat, e.key, e.(cas := gcas));
      var _ := Erase(e.key);
      Insert(e.(cas := gcas));
    }

    method DeleteItem(key: string) returns (deleted: bool)
      requires Valid()
      modifies this, shards
      ensures Valid() && Abs() == Step(old(Abs()), Action.DeleteItem(key))
      ensures deleted == Touches(old(Abs()), Action.DeleteItem(key), key)
    {
      StepKeepsInv(Abs(), Action.DeleteItem(key));
      hide Inv, Sharded;
      deleted := Erase(key);
    }

    /** The new item that append and prepend build. */
    method Join(front: string, back: string, key: string, flags: int, exptime: int) returns (e: Entry)
      requires IsValue(front) && IsValue(back)
      ensures e == Entry(key, flags, exptime, Joined(front, back), 0)
    {
      ghost var joined := Joined(front, back);
      JoinedEndsWithCRLF(front, back);
      var item := new Item(key, flags, exptime, |front| + |back| - 2, 0);
      item.Append(front[..|front| - 2]);
      item.Append(back);
      assert item.Received() == key + joined;
      hide Joined, IsValue;
      item.SplitsAt(key, joined);
      e := item.AsEntry();
    }

    /** The item that append or prepend puts in the place of the one held. */
    method Splice(policy: Policy, held: Entry, e: Entry) returns (m: Entry)
      requires IsValue(held.value) && IsValue(e.value) && (policy == Append || policy == Prepend)
      ensures m == Merged(policy, Some(held), e, 0)
    {
      hide IsValue, Joined;
      if policy == Append {
        m := Join(held.value, e.value, e.key, held.flags, held.exptime);
      } else {
        m := Join(e.value, held.value, e.key, held.flags, held.exptime);
      }
    }

    /** Whether an item is stored, and what is put under its key. */
    method Choose(policy: Policy, now: Option<Entry>, e: Entry, ghost cas: nat) returns (stored: bool, m: Entry)
      requires IsValue(e.value) && (now.Some? ==> IsValue(now.value.value)) && policy != Invalid
      ensures stored == Admits(policy, now, e)
      ensures stored ==> IsMerged(policy, now, e, m, cas)
    {
      hide IsValue, Joined;
      m := e;
      if policy == Set {
        stored := true;
      } else if policy == Add {
        stored := now.None?;
      } else if policy == Replace {
        stored := now.Some?;
      } else if policy == Append || policy == Prepend {
        stored := now.Some?;
        if stored {
          m := Splice(policy, now.value, e);
        }
      } else {
        stored := now.Some? && now.value.cas == e.cas;
      }
    }

    method Update(e: Entry, policy: Policy) returns (stored: bool, found: bool)
      requires Valid() && Enabled(Abs(), Action.StoreItem(e, policy))
      modifies this, shards
      ensures Valid() && Abs() == Step(old(Abs()), Action.StoreItem(e, policy))
      ensures stored == Admits(policy, Lookup(old(Abs()), e.key), e) && found == (e.key in old(flat))
      ensures stored <==> gcas > old(gcas)
    {
      ghost var s := Abs();
      ghost var target := Step(s, Action.StoreItem(e, policy));
      StepKeepsInv(s, Action.StoreItem(e, policy));
      StoreStep(s, e, policy);
      var now := GetItem(e.key);
      found := now.Some?;
      assert found == (e.key in flat);
      hide Inv, Sharded, EndsWithCRLF, IsValue, Step, Merged, Admits, Enabled, Lookup, IsMerged, PutInto;
      var m;
      stored, m := Choose(policy, now, e, gcas + 1);
      assert Abs() == s;
      if stored {
        AdmittedStep(s, e, policy, m);
        Put(m, target);
      }
      assert Abs() == target && target.cas == if stored then s.cas + 1 else s.cas;
    }

    method StoreItem(item: Item, policy: Policy) returns (stored: bool, found: bool)
      requires Valid() && item.Valid() && item.NeededBytes() == 0 && Enabled(Abs(), Action.StoreItem(item.AsEntry(), policy))
      modifies this, shards
      ensures Valid() && item.AsEntry() == old(item.AsEntry())
      ensures Enabled(old(Abs()), Action.StoreItem(item.AsEntry(), policy))
      ensures Abs() == Step(old(Abs()), Action.StoreItem(item.AsEntry(), policy))
      ensures stored == Touches(old(Abs()), Action.StoreItem(item.AsEntry(), policy), item.AsEntry().key)
      ensures stored <==> gcas > old(gcas)
      ensures found == (item.AsEntry().key in old(flat))
    {
      var e := item.AsEntry();
      hide Inv, Sharded, Enabled, Step;
      stored, found := Update(e, policy);
    }
  }
}
