/** The word counters and the end-to-end law: whatever the batch size, the size at which the local
    map is cut off, the order in which it is walked, the number of receivers and the chunking of the
    streams, the receivers together count what a single counter would. */
module WordCount {
  import opened Bytes
  import opened WordCountProtocol

  type Hash = Text -> nat

  /** How often `w` occurs in `words`. */
  function Occurrences(words: seq<Text>, w: Text): nat {
    if words == [] then 0
    else Occurrences(words[..|words| - 1], w) + (if words[|words| - 1] == w then 1 else 0)
  }

  lemma {:induction false} OccursIff(words: seq<Text>, w: Text)
    ensures Occurrences(words, w) > 0 <==> w in words
  {
    if words != [] {
      OccursIff(words[..|words| - 1], w);
      assert words == words[..|words| - 1] + [words[|words| - 1]];
    }
  }

  lemma {:induction false} OccurrencesSplit(a: seq<Text>, b: seq<Text>, w: Text)
    ensures Occurrences(a + b, w) == Occurrences(a, w) + Occurrences(b, w)
    decreases |b|
  {
    if b == [] {
      assert a + b == a;
    } else {
      OccurrencesSplit(a, b[..|b| - 1], w);
      assert (a + b)[..|a + b| - 1] == a + b[..|b| - 1];
    }
  }

  lemma OneMoreWord(words: seq<Text>, i: nat)
    requires i < |words|
    ensures forall w :: Occurrences(words[..i + 1], w) == Occurrences(words[..i], w) + if words[i] == w then 1 else 0
  {
    assert words[..i + 1][..|words[..i + 1]| - 1] == words[..i];
  }

  /** operator[] on a WordCountMap: an absent word counts zero. */
  function Lookup(m: map<Text, nat>, w: Text): nat {
    if w in m then m[w] else 0
  }

  /** The map counts the words from `pos` to `end`. */
  ghost predicate CountsFrom(words: seq<Text>, pos: nat, end: nat, m: map<Text, nat>)
    requires pos <= end <= |words|
  {
    && (forall w :: w in m ==> IsWord(w) && m[w] > 0)
    && (forall w :: Occurrences(words[..pos], w) + Lookup(m, w) == Occurrences(words[..end], w))
  }

  lemma CountsAre(words: seq<Text>, pos: nat, end: nat, m: map<Text, nat>)
    requires pos <= end <= |words| && CountsFrom(words, pos, end, m)
    ensures forall w :: w in m ==> IsWord(w) && m[w] > 0
    ensures forall w :: Occurrences(words[..pos], w) + Lookup(m, w) == Occurrences(words[..end], w)
  {
  }

  lemma CountsOneMore(words: seq<Text>, pos: nat, end: nat, m: map<Text, nat>)
    requires pos <= end < |words| && CountsFrom(words, pos, end, m) && (forall w :: w in words ==> IsWord(w))
    ensures CountsFrom(words, pos, end + 1, m[words[end] := Lookup(m, words[end]) + 1])
  {
    OneMoreWord(words, end);
    Counted(m, words[end]);
    hide Occurrences, IsWord, Lookup;
  }

  lemma Counted(m: map<Text, nat>, word: Text)
    ensures forall w :: Lookup(m[word := Lookup(m, word) + 1], w) == Lookup(m, w) + if word == w then 1 else 0
  {
  }

  function WordTotal(rs: seq<Record>, w: Text): nat {
    if rs == [] then 0
    else WordTotal(rs[..|rs| - 1], w) + (if rs[|rs| - 1].word == w then rs[|rs| - 1].count else 0)
  }

  /** A bucket holds only words that hash to it. */
  ghost predicate Belongs(records: seq<Record>, i: nat, n: nat, hash: Hash)
    requires n > 0
  {
    forall r :: r in records ==> IsWord(r.word) && r.count > 0 && hash(r.word) % n == i
  }

  class Sender {
    const n: nat                          // buckets_.size()
    const batchSize: nat                  // g_batchSize
    const maxHashSize: nat                // kMaxHashSize
    const hash: Hash                      // std::hash<string>
    var buffer: seq<Text>                 // each SendThrottler's buffer_
    var stream: seq<Text>                 // what each connection has been given to send
    ghost var records: seq<seq<Record>>   // the records put into each bucket so far

    ghost predicate Valid()
      reads this
    {
      && 0 < n == |buffer| == |stream| == |records|
      && (forall i :: 0 <= i < n ==> stream[i] + buffer[i] == EncodeRecords(records[i]))
      && (forall i :: 0 <= i < n ==> Belongs(records[i], i, n, hash))
      && (forall i :: 0 <= i < n ==> buffer[i] == [] || |buffer[i]| < batchSize)
    }

    /** How often `w` has been sent, as counted by the records in its bucket. */
    ghost function Sent(w: Text): nat
      requires Valid()
      reads this
    {
      WordTotal(records[hash(w) % n], w)
    }

    constructor (n: nat, batchSize: nat, maxHashSize: nat, hash: Hash)
      requires n > 0
      ensures Valid() && this.n == n && this.hash == hash && forall w :: Sent(w) == 0
    {
      this.n, this.batchSize, this.maxHashSize, this.hash := n, batchSize, maxHashSize, hash;
      buffer, stream, records := seq(n, _ => []), seq(n, _ => []), seq(n, _ => []);
    }

    /** SendThrottler::send, and the choice of the bucket. */
    method Send(word: Text, count: nat)
      requires Valid() && IsWord(word) && count > 0
      modifies this
      ensures Valid()
      ensures forall w :: Sent(w) == old(Sent(w)) + if w == word then count else 0
    {
      hide EncodeRecord, EncodeRecords;
      var idx := hash(word) % n;
      var r := Record(word, count);
      EncodeAppended(records[idx], r);
      ghost var rs := records[idx] + [r];
      assert rs[..|rs| - 1] == records[idx];
      assert stream[idx] + (buffer[idx] + EncodeRecord(r)) == stream[idx] + buffer[idx] + EncodeRecord(r);
      records := records[idx := rs];
      buffer := buffer[idx := buffer[idx] + EncodeRecord(r)];
      if |buffer[idx]| >= batchSize {
        assert stream[idx] + buffer[idx] + [] == stream[idx] + buffer[idx];
        stream := stream[idx := stream[idx] + buffer[idx]];
        buffer := buffer[idx := []];
      }
    }

    /** Fills a fresh map from the words at `pos` on, until the file ends or the map is too big. */
    method CountSome(words: seq<Text>, pos: nat) returns (wordcounts: map<Text, nat>, end: nat, good: bool)
      requires pos <= |words| && forall w :: w in words ==> IsWord(w)
      ensures pos <= end <= |words| && (if good then pos < end else end == |words|)
      ensures forall w :: w in wordcounts ==> IsWord(w) && wordcounts[w] > 0
      ensures forall w :: Occurrences(words[..pos], w) + Lookup(wordcounts, w) == Occurrences(words[..end], w)
      ensures |wordcounts| <= maxHashSize + 1 && (good ==> |wordcounts| == maxHashSize + 1)
    {
      wordcounts, end, good := map[], pos, true;
      assert CountsFrom(words, pos, end, wordcounts);
      hide Occurrences, IsWord, CountsFrom, Lookup;
      while true
        invariant pos <= end <= |words| && good && CountsFrom(words, pos, end, wordcounts) && |wordcounts| <= maxHashSize
        decreases |words| - end
      {
        if end == |words| {
          good := false;
          break;
        }
        var word := words[end];
        CountsOneMore(words, pos, end, wordcounts);
        wordcounts := wordcounts[word := Lookup(wordcounts, word) + 1];
        end := end + 1;
        if |wordcounts| > maxHashSize {
          break;
        }
      }
      CountsAre(words, pos, end, wordcounts);
    }

    /** Sends a map's entries, in whatever order the map is walked. */
    method SendAll(wordcounts: map<Text, nat>)
      requires Valid() && forall w :: w in wordcounts ==> IsWord(w) && wordcounts[w] > 0
      modifies this
      ensures Valid()
      ensures forall w :: Sent(w) == old(Sent(w)) + Lookup(wordcounts, w)
    {
      hide Belongs, EncodeRecords, IsWord, WordTotal;
      var left := wordcounts.Keys;
      while left != {}
        invariant Valid() && left <= wordcounts.Keys
        invariant forall w :: Sent(w) == old(Sent(w)) + if w in wordcounts && w !in left then wordcounts[w] else 0
        decreases |left|
      {
        var word :| word in left;
        Send(word, wordcounts[word]);
        left := left - {word};
      }
    }

    method ProcessFile(words: seq<Text>)
      requires Valid() && forall w :: w in words ==> IsWord(w)
      modifies this
      ensures Valid() && forall w :: Sent(w) == old(Sent(w)) + Occurrences(words, w)
    {
      var pos, good := 0, true;
      while good
        invariant pos <= |words| && (!good ==> pos == |words|)
        invariant Valid() && forall w :: Sent(w) == old(Sent(w)) + Occurrences(words[..pos], w)
        decreases good, |words| - pos
      {
        var wordcounts;
        wordcounts, pos, good := CountSome(words, pos);
        SendAll(wordcounts);
      }
      assert words[..pos] == words;
    }

    /** disconnect() on every throttler: what is still buffered is sent. */
    method DisconnectAll()
      requires Valid()
      modifies this
      ensures Valid() && (forall w :: Sent(w) == old(Sent(w)))
      ensures forall i :: 0 <= i < n ==> buffer[i] == [] && stream[i] == EncodeRecords(records[i])
    {
      for i := 0 to n
        invariant Valid() && records == old(records)
        invariant forall j :: 0 <= j < i ==> buffer[j] == []
      {
        if |buffer[i]| > 0 {
          assert stream[i] + buffer[i] + [] == stream[i] + buffer[i];
          stream, buffer := stream[i := stream[i] + buffer[i]], buffer[i := []];
        }
      }
      forall i | 0 <= i < n ensures stream[i] == EncodeRecords(records[i]) {
        assert stream[i] + [] == stream[i];
      }
    }

    /** The main program: all files, then the disconnection. */
    method ProcessAll(files: seq<seq<Text>>)
      requires Valid() && (forall w :: Sent(w) == 0)
      requires forall f :: f in files ==> forall w :: w in f ==> IsWord(w)
      modifies this
      ensures Valid()
      ensures Carries(stream, records, n, hash, Flatten(files))
    {
      for i := 0 to |files|
        invariant Valid() && forall w :: Sent(w) == Occurrences(Flatten(files[..i]), w)
      {
        assert files[i] in files;
        FlattenAppended(files[..i], files[i]);
        assert files[..i + 1] == files[..i] + [files[i]];
        ProcessFile(files[i]);
        forall w ensures Sent(w) == Occurrences(Flatten(files[..i + 1]), w) {
          OccurrencesSplit(Flatten(files[..i]), files[i], w);
        }
      }
      assert files[..|files|] == files;
      DisconnectAll();
    }
  }

  function Flatten(files: seq<seq<Text>>): seq<Text> {
    if files == [] then [] else files[0] + Flatten(files[1..])
  }

  lemma {:induction false} FlattenAppended(files: seq<seq<Text>>, f: seq<Text>)
    ensures Flatten(files + [f]) == Flatten(files) + f
    decreases |files|
  {
    if files == [] {
      assert files + [f] == [f] && [f][1..] == [];
    } else {
      FlattenAppended(files[1..], f);
      assert (files + [f])[1..] == files[1..] + [f];
    }
  }

  // ----- end to end

  /** What a sender leaves behind: its streams are its records, bucket by bucket, and these are the counts of
      its words. */
  ghost predicate Carries(stream: seq<Text>, records: seq<seq<Record>>, n: nat, hash: Hash, words: seq<Text>) {
    && |stream| == n && Tallies(records, n, hash, words)
    && (forall i :: 0 <= i < n ==> stream[i] == EncodeRecords(records[i]))
  }

  /** Records that count `words`, each word in the bucket it hashes to. */
  ghost predicate Tallies(records: seq<seq<Record>>, n: nat, hash: Hash, words: seq<Text>) {
    && 0 < n == |records|
    && (forall i :: 0 <= i < n ==> Belongs(records[i], i, n, hash))
    && (forall w :: WordTotal(records[hash(w) % n], w) == Occurrences(words, w))
  }

  /** What the receivers count for `k`, all together. */
  function CountAt(maps: seq<Counts>, k: Text): int {
    if maps == [] then 0 else Get(maps[0], k) + CountAt(maps[1..], k)
  }

  /** The maps hold what the records add up to. */
  ghost predicate AddsUp(maps: seq<Counts>, records: seq<seq<Record>>) {
    && |maps| == |records|
    && forall i, k :: 0 <= i < |maps| ==> Get(maps[i], k) == KeyTotal(records[i], k) && (k in maps[i] <==> HasKey(records[i], k))
  }

  lemma {:induction false} KeyTotalAppended(rs: seq<Record>, r: Record, k: Text)
    ensures KeyTotal(rs + [r], k) == KeyTotal(rs, k) + if CStr(r.word) == k then r.count else 0
    decreases |rs|
  {
    hide CStr;
    if rs == [] {
      assert rs + [r] == [r] && [r][1..] == [];
    } else {
      KeyTotalAppended(rs[1..], r, k);
      assert (rs + [r])[1..] == rs[1..] + [r];
    }
  }

  lemma {:induction false} TotalsAgree(rs: seq<Record>, w: Text)
    requires forall r :: r in rs ==> NulFree(r.word)
    ensures KeyTotal(rs, w) == WordTotal(rs, w)
    decreases |rs|
  {
    if rs != [] {
      var h, r := rs[..|rs| - 1], rs[|rs| - 1];
      assert rs == h + [r];
      CStrIsIdentity(r.word);
      TotalsAgree(h, w);
      KeyTotalAppended(h, r, w);
    }
  }

  lemma {:induction false} WordTotalZero(rs: seq<Record>, w: Text)
    requires forall r :: r in rs ==> r.word != w
    ensures WordTotal(rs, w) == 0
    decreases |rs|
  {
    if rs != [] {
      WordTotalZero(rs[..|rs| - 1], w);
    }
  }

  lemma {:induction false} WordTotalPositive(rs: seq<Record>, r: Record)
    requires r in rs && r.count > 0
    ensures WordTotal(rs, r.word) > 0
    decreases |rs|
  {
    if rs[|rs| - 1] != r {
      assert r in rs[..|rs| - 1];
      WordTotalPositive(rs[..|rs| - 1], r);
    }
  }

  lemma {:induction false} CountAtOne(maps: seq<Counts>, k: Text, i: nat)
    requires i < |maps| && forall j :: 0 <= j < |maps| && j != i ==> k !in maps[j]
    ensures CountAt(maps, k) == Get(maps[i], k)
    decreases |maps|
  {
    if i == 0 {
      CountAtNone(maps[1..], k);
    } else {
      CountAtOne(maps[1..], k, i - 1);
    }
  }

  lemma {:induction false} CountAtNone(maps: seq<Counts>, k: Text)
    requires forall j :: 0 <= j < |maps| ==> k !in maps[j]
    ensures CountAt(maps, k) == 0
    decreases |maps|
  {
    if maps != [] {
      CountAtNone(maps[1..], k);
    }
  }

  lemma OnlyOccurring(records: seq<seq<Record>>, n: nat, hash: Hash, words: seq<Text>, i: nat, r: Record)
    requires Tallies(records, n, hash, words) && i < n && r in records[i]
    ensures r.word in words && hash(r.word) % n == i
  {
    assert Belongs(records[i], i, n, hash);
    WordTotalPositive(records[i], r);
    OccursIff(words, r.word);
  }

  /** A key is only ever known to the receiver it hashes to. */
  lemma KeyIsAtItsBucket(records: seq<seq<Record>>, n: nat, hash: Hash, words: seq<Text>, maps: seq<Counts>, i: nat, k: Text)
    requires Tallies(records, n, hash, words) && AddsUp(maps, records)
    requires (forall w :: w in words ==> NulFree(w)) && i < n && k in maps[i]
    ensures hash(k) % n == i
  {
    hide KeyTotal, WordTotal, Occurrences, NulFree, Belongs, Get;
    assert HasKey(records[i], k);
    var r :| r in records[i] && CStr(r.word) == k;
    OnlyOccurring(records, n, hash, words, i, r);
    CStrIsIdentity(r.word);
  }

  lemma CountOfWord(records: seq<seq<Record>>, n: nat, hash: Hash, words: seq<Text>, maps: seq<Counts>, w: Text)
    requires Tallies(records, n, hash, words) && AddsUp(maps, records)
    requires forall w :: w in words ==> NulFree(w)
    ensures CountAt(maps, w) == Occurrences(words, w)
  {
    hide KeyTotal, WordTotal, Occurrences, CStr, Belongs, NulFree, CountAt, HasKey;
    var i := hash(w) % n;
    forall j: nat | j < n && j != i ensures w !in maps[j] {
      if w in maps[j] { KeyIsAtItsBucket(records, n, hash, words, maps, j, w); }
    }
    CountAtOne(maps, w, i);
    assert Get(maps[i], w) == KeyTotal(records[i], w);
    forall r | r in records[i] ensures NulFree(r.word) {
      OnlyOccurring(records, n, hash, words, i, r);
    }
    TotalsAgree(records[i], w);
  }

  /** If no word contains a NUL, no key is known to two receivers, and together they give each word its number of
      occurrences. */
  lemma CountsAreExact(records: seq<seq<Record>>, n: nat, hash: Hash, words: seq<Text>, maps: seq<Counts>)
    requires Tallies(records, n, hash, words) && AddsUp(maps, records)
    requires forall w :: w in words ==> NulFree(w)
    ensures forall i, j, k :: 0 <= i < j < n && k in maps[i] ==> k !in maps[j]
    ensures forall w :: CountAt(maps, w) == Occurrences(words, w)
  {
    hide Occurrences, Belongs, NulFree, CountAt, HasKey, KeyTotal, Get;
    forall i, j, k | 0 <= i < j < n && k in maps[i] ensures k !in maps[j] {
      KeyIsAtItsBucket(records, n, hash, words, maps, i, k);
      if k in maps[j] { KeyIsAtItsBucket(records, n, hash, words, maps, j, k); }
    }
    forall w ensures CountAt(maps, w) == Occurrences(words, w) {
      CountOfWord(records, n, hash, words, maps, w);
    }
  }

  /** A word with a NUL in it is cut off before it is sent, and nobody ever counts it. */
  lemma NulIsNotCounted(records: seq<seq<Record>>, n: nat, hash: Hash, words: seq<Text>, maps: seq<Counts>, w: Text)
    requires Tallies(records, n, hash, words) && AddsUp(maps, records) && w in words && !NulFree(w)
    ensures CountAt(maps, w) != Occurrences(words, w)
  {
    hide Get, KeyTotal, WordTotal;
    OccursIff(words, w);
    forall j | 0 <= j < |maps| ensures w !in maps[j] {
      forall r | r in records[j] ensures CStr(r.word) != w {
        CStrIsIdentity(r.word);
      }
      assert !HasKey(records[j], w);
    }
    CountAtNone(maps, w);
  }

  // ----- several senders

  /** A word counter that has finished. */
  datatype Finished = Finished(stream: seq<Text>, records: seq<seq<Record>>, words: seq<Text>)

  function WordsOf(senders: seq<Finished>): seq<Text> {
    if senders == [] then [] else WordsOf(senders[..|senders| - 1]) + senders[|senders| - 1].words
  }

  /** What the senders have put into bucket `i`. */
  function InBucket(senders: seq<Finished>, i: nat): seq<seq<Record>>
    requires forall s :: s in senders ==> i < |s.records|
  {
    seq(|senders|, j requires 0 <= j < |senders| => assert senders[j] in senders; senders[j].records[i])
  }

  ghost predicate AllCarry(senders: seq<Finished>, n: nat, hash: Hash) {
    n > 0 && forall j :: 0 <= j < |senders| ==> Carries(senders[j].stream, senders[j].records, n, hash, senders[j].words)
  }

  function Merged(senders: seq<Finished>, n: nat): (r: seq<seq<Record>>)
    requires forall s :: s in senders ==> |s.records| == n
    ensures |r| == n
  {
    seq(n, i requires 0 <= i < n => AllRecords(InBucket(senders, i)))
  }

  lemma {:induction false} WordTotalSplit(a: seq<Record>, b: seq<Record>, w: Text)
    ensures WordTotal(a + b, w) == WordTotal(a, w) + WordTotal(b, w)
    decreases |b|
  {
    if b == [] {
      assert a + b == a;
    } else {
      WordTotalSplit(a, b[..|b| - 1], w);
      assert (a + b)[..|a + b| - 1] == a + b[..|b| - 1];
    }
  }

  lemma AllKnown(senders: seq<Finished>, n: nat, hash: Hash)
    requires AllCarry(senders, n, hash)
    ensures forall s :: s in senders ==> |s.records| == n
  {
  }

  lemma InBucketSplit(senders: seq<Finished>, n: nat, i: nat)
    requires senders != [] && i < n && forall s :: s in senders ==> |s.records| == n
    ensures var init, last := senders[..|senders| - 1], senders[|senders| - 1];
            && (forall s :: s in init ==> |s.records| == n)
            && AllRecords(InBucket(senders, i)) == AllRecords(InBucket(init, i)) + last.records[i]
  {
    var init := senders[..|senders| - 1];
    assert forall s :: s in init ==> s in senders;
    assert InBucket(senders, i)[..|senders| - 1] == InBucket(init, i);
  }

  /** Together, the records of several senders count the words of all of them. */
  lemma {:induction false} MergedTallies(senders: seq<Finished>, n: nat, hash: Hash)
    requires AllCarry(senders, n, hash)
    ensures (forall s :: s in senders ==> |s.records| == n) && Tallies(Merged(senders, n), n, hash, WordsOf(senders))
    decreases |senders|
  {
    AllKnown(senders, n, hash);
    var merged := Merged(senders, n);
    if senders == [] {
      assert forall i :: 0 <= i < n ==> merged[i] == [];
    } else {
      var init, last := senders[..|senders| - 1], senders[|senders| - 1];
      assert last in senders;
      MergedTallies(init, n, hash);
      forall i: nat | i < n ensures merged[i] == Merged(init, n)[i] + last.records[i] && Belongs(merged[i], i, n, hash) {
        InBucketSplit(senders, n, i);
        assert Belongs(Merged(init, n)[i], i, n, hash) && Belongs(last.records[i], i, n, hash);
      }
      hide Belongs, EncodeRecords, Merged;
      forall w ensures WordTotal(merged[hash(w) % n], w) == Occurrences(WordsOf(senders), w) {
        WordTotalSplit(Merged(init, n)[hash(w) % n], last.records[hash(w) % n], w);
        OccurrencesSplit(WordsOf(init), last.words, w);
      }
    }
  }

  /** Each receiver has been sent the senders' streams for its bucket, in chunks that interleave in any way, and
      nothing else. */
  ghost predicate Delivered(senders: seq<Finished>, n: nat, arrivals: seq<seq<Arrival>>) {
    && |arrivals| == n
    && (forall i :: 0 <= i < n ==> FromSenders(arrivals[i], |senders|))
    && (forall i, j :: 0 <= i < n && 0 <= j < |senders| ==>
          i < |senders[j].stream| && Concat(ChunksFrom(arrivals[i], j)) == senders[j].stream[i])
  }

  /** What the receivers have in the end. */
  function MapsOf(n: nat, arrivals: seq<seq<Arrival>>): (maps: seq<Counts>)
    requires forall xs :: xs in arrivals ==> FromSenders(xs, n)
    ensures |maps| == |arrivals|
  {
    seq(|arrivals|, i requires 0 <= i < |arrivals| => assert arrivals[i] in arrivals; ReceiveAll(map[], Empty(n), arrivals[i]).0)
  }

  lemma DeliveredToBucket(senders: seq<Finished>, n: nat, hash: Hash, arrivals: seq<seq<Arrival>>, i: nat)
    requires AllCarry(senders, n, hash) && Delivered(senders, n, arrivals) && i < n
    requires forall s :: s in senders ==> |s.records| == n
    ensures AllArrived(InBucket(senders, i), arrivals[i])
  {
    var rss := InBucket(senders, i);
    hide EncodeRecords, Concat, ChunksFrom;
    forall j | 0 <= j < |rss| ensures AreWords(rss[j]) && Concat(ChunksFrom(arrivals[i], j)) == EncodeRecords(rss[j]) {
      assert Carries(senders[j].stream, senders[j].records, n, hash, senders[j].words);
      assert rss[j] == senders[j].records[i] && Belongs(senders[j].records[i], i, n, hash);
    }
  }

  lemma DeliveredAddsUp(senders: seq<Finished>, n: nat, hash: Hash, arrivals: seq<seq<Arrival>>)
    requires AllCarry(senders, n, hash) && Delivered(senders, n, arrivals)
    ensures (forall xs :: xs in arrivals ==> FromSenders(xs, |senders|)) && (forall s :: s in senders ==> |s.records| == n)
    ensures AddsUp(MapsOf(|senders|, arrivals), Merged(senders, n))
  {
    AllKnown(senders, n, hash);
    var maps, merged := MapsOf(|senders|, arrivals), Merged(senders, n);
    forall i: nat, k: Text | i < n
      ensures Get(maps[i], k) == KeyTotal(merged[i], k) && (k in maps[i] <==> HasKey(merged[i], k))
    {
      DeliveredToBucket(senders, n, hash, arrivals, i);
      ReceiverOfSeveral(InBucket(senders, i), arrivals[i], k);
    }
    hide Get, KeyTotal, HasKey, ReceiveAll, AllRecords;
  }

  /** The distributed count is the sequential count: for any number of senders and receivers, however the chunks
      interleave, no key is known to two receivers, and together they give each word its number of occurrences
      in all files. */
  lemma DistributedCount(senders: seq<Finished>, n: nat, hash: Hash, arrivals: seq<seq<Arrival>>)
    requires AllCarry(senders, n, hash) && Delivered(senders, n, arrivals)
    requires forall w :: w in WordsOf(senders) ==> NulFree(w)
    ensures forall xs :: xs in arrivals ==> FromSenders(xs, |senders|)
    ensures var maps := MapsOf(|senders|, arrivals);
            && |maps| == n
            && (forall i, j, k :: 0 <= i < j < n && k in maps[i] ==> k !in maps[j])
            && (forall w :: CountAt(maps, w) == Occurrences(WordsOf(senders), w))
  {
    MergedTallies(senders, n, hash);
    DeliveredAddsUp(senders, n, hash, arrivals);
    CountsAreExact(Merged(senders, n), n, hash, WordsOf(senders), MapsOf(|senders|, arrivals));
    hide AllCarry, Tallies, AddsUp, MapsOf, Merged, CountAt, Occurrences;
  }

  /** The condition is exact. */
  lemma DistributedCountNeedsNulFree(senders: seq<Finished>, n: nat, hash: Hash, arrivals: seq<seq<Arrival>>)
    requires AllCarry(senders, n, hash) && Delivered(senders, n, arrivals)
    ensures forall xs :: xs in arrivals ==> FromSenders(xs, |senders|)
    ensures (forall w :: CountAt(MapsOf(|senders|, arrivals), w) == Occurrences(WordsOf(senders), w))
            <==> (forall w :: w in WordsOf(senders) ==> NulFree(w))
  {
    MergedTallies(senders, n, hash);
    DeliveredAddsUp(senders, n, hash, arrivals);
    hide AllCarry, Tallies, AddsUp, MapsOf, Merged, CountAt, Occurrences, NulFree;
    if forall w :: w in WordsOf(senders) ==> NulFree(w) {
      DistributedCount(senders, n, hash, arrivals);
    } else {
      var w :| w in WordsOf(senders) && !NulFree(w);
      NulIsNotCounted(Merged(senders, n), n, hash, WordsOf(senders), MapsOf(|senders|, arrivals), w);
    }
  }
}
