/** What travels from the word counters to the receivers: records "word TAB count CR LF", in chunks
    of any size, and what a receiver makes of them. */
module WordCountProtocol {
  import opened Bytes
  import opened Buffers

  // ----- numbers

  predicate IsDigit(c: Byte) {
    '0' <= c <= '9'
  }

  function DigitOf(d: nat): Byte
    requires d < 10
  {
    (48 + d) as char
  }

  function Decimal(n: nat): (s: Text)
    ensures s != []
    ensures forall i :: 0 <= i < |s| ==> IsDigit(s[i])
  {
    if n < 10 then [DigitOf(n)] else Decimal(n / 10) + [DigitOf(n % 10)]
  }

  /** strtoll's digit loop. */
  function Digits(acc: nat, s: Text): nat
    decreases |s|
  {
    if s == [] || !IsDigit(s[0]) then acc else Digits(10 * acc + (s[0] as int - 48), s[1..])
  }

  function SkipSpace(s: Text): Text {
    if s != [] && IsSpace(s[0]) then SkipSpace(s[1..]) else s
  }

  function Atoll(s: Text): int {
    var t := SkipSpace(s);
    if t != [] && t[0] == '-' then 0 - Digits(0, t[1..])
    else if t != [] && t[0] == '+' then Digits(0, t[1..])
    else Digits(0, t)
  }

  lemma {:induction false} DigitsSplit(acc: nat, a: Text, b: Text)
    requires forall i :: 0 <= i < |a| ==> IsDigit(a[i])
    ensures Digits(acc, a + b) == Digits(Digits(acc, a), b)
    decreases |a|
  {
    if a == [] {
      assert a + b == b;
    } else {
      assert (a + b)[1..] == a[1..] + b;
      DigitsSplit(10 * acc + (a[0] as int - 48), a[1..], b);
    }
  }

  lemma {:induction false} DecimalRoundTrip(n: nat)
    ensures Digits(0, Decimal(n)) == n
  {
    if n >= 10 {
      DecimalRoundTrip(n / 10);
      var d := [DigitOf(n % 10)];
      DigitsSplit(0, Decimal(n / 10), d);
      assert Digits(n / 10, d) == Digits(10 * (n / 10) + n % 10, d[1..]);
    } else {
      var s := Decimal(n);
      assert Digits(0, s) == Digits(n, s[1..]);
    }
  }

  // ----- records

  /** What operator>> reads: a word is not empty and has no white space in it. */
  predicate IsWord(w: Text) {
    w != [] && forall i :: 0 <= i < |w| ==> !IsSpace(w[i])
  }

  datatype Record = Record(word: Text, count: nat)

  function EncodeRecord(r: Record): Text {
    CStr(r.word) + ['\t'] + Decimal(r.count) + CRLF
  }

  function EncodeRecords(rs: seq<Record>): Text {
    if rs == [] then [] else EncodeRecord(rs[0]) + EncodeRecords(rs[1..])
  }

  lemma {:induction false} EncodeAppended(rs: seq<Record>, r: Record)
    ensures EncodeRecords(rs + [r]) == EncodeRecords(rs) + EncodeRecord(r)
    decreases |rs|
  {
    hide EncodeRecord;
    if rs == [] {
      assert rs + [r] == [r] && [r][1..] == [];
      assert EncodeRecords([r]) == EncodeRecord(r) + [] == [] + EncodeRecord(r);
    } else {
      EncodeAppended(rs[1..], r);
      assert (rs + [r])[1..] == rs[1..] + [r] && (rs + [r])[0] == rs[0];
    }
  }

  // ----- the receiver

  type Counts = map<Text, int>

  function Get(m: Counts, k: Text): int {
    if k in m then m[k] else 0
  }

  /** What one complete line adds; `s` starts with it, since atoll reads on to the first non-digit. */
  function TakeLine(m: Counts, s: Text, crlf: nat): Counts
    requires crlf <= |s|
  {
    var tab := Find(s[..crlf], '\t');
    if tab < crlf then var word := s[..tab]; m[word := Get(m, word) + Atoll(s[tab..])] else m
  }

  /** A call of onMessage: the counts and the bytes left in the buffer. */
  function Consume(m: Counts, s: Text): (Counts, Text)
    decreases |s|
  {
    var crlf := FindCRLF(s);
    if crlf < 0 then (m, s) else Consume(TakeLine(m, s, crlf), s[crlf + 2..])
  }

  function ConsumeAll(m: Counts, rest: Text, chunks: seq<Text>): (Counts, Text)
    decreases |chunks|
  {
    if chunks == [] then (m, rest)
    else var (m', rest') := Consume(m, rest + chunks[0]); ConsumeAll(m', rest', chunks[1..])
  }

  /** The line has no tab, or something other than white space behind its first one. */
  predicate Legible(line: Text) {
    var tab := Find(line, '\t');
    tab == |line| || HasInk(line[tab..])
  }

  predicate HasInk(t: Text) {
    exists i :: 0 <= i < |t| && !IsSpace(t[i])
  }

  /** Every complete line of `s` is legible. */
  predicate WellFormed(s: Text)
    decreases |s|
  {
    var crlf := FindCRLF(s);
    crlf < 0 || (Legible(s[..crlf]) && WellFormed(s[crlf + 2..]))
  }

  lemma {:induction false} WellFormedPrefix(s: Text, more: Text)
    requires WellFormed(s + more)
    ensures WellFormed(s)
    decreases |s|
  {
    var crlf := FindCRLF(s);
    hide Legible;
    if crlf >= 0 {
      FindCRLFStable(s, more);
      assert (s + more)[..crlf] == s[..crlf] && (s + more)[crlf + 2..] == s[crlf + 2..] + more;
      WellFormedPrefix(s[crlf + 2..], more);
    }
  }

  lemma {:induction false} SkipSpaceStops(t: Text, after: Text)
    requires HasInk(t)
    ensures SkipSpace(t) != [] && SkipSpace(t + after) == SkipSpace(t) + after
    decreases |t|
  {
    hide IsSpace;
    var i :| 0 <= i < |t| && !IsSpace(t[i]);
    assert (t + after)[0] == t[0];
    if IsSpace(t[0]) {
      assert t[1..][i - 1] == t[i];
      SkipSpaceStops(t[1..], after);
      assert (t + after)[1..] == t[1..] + after;
    }
  }

  lemma {:induction false} DigitsStop(acc: nat, t: Text, after: Text)
    requires after != [] && !IsDigit(after[0])
    ensures Digits(acc, t + after) == Digits(acc, t)
    decreases |t|
  {
    if t == [] {
      assert t + after == after;
    } else {
      assert (t + after)[0] == t[0] && (t + after)[1..] == t[1..] + after;
      if IsDigit(t[0]) {
        DigitsStop(10 * acc + (t[0] as int - 48), t[1..], after);
      }
    }
  }

  /** atoll does not read beyond the line, if it finds something there. */
  lemma AtollStops(t: Text, after: Text)
    requires HasInk(t) && after != [] && !IsDigit(after[0])
    ensures Atoll(t + after) == Atoll(t)
  {
    SkipSpaceStops(t, after);
    var u := SkipSpace(t);
    assert (u + after)[0] == u[0] && (u + after)[1..] == u[1..] + after;
    DigitsStop(0, u, after);
    DigitsStop(0, u[1..], after);
    hide Digits, SkipSpace;
  }

  /** atoll skips white space and reads a sign and a number. */
  lemma AtollReads(pad: Text, n: nat, after: Text)
    requires !HasInk(pad) && after != [] && !IsDigit(after[0])
    ensures Atoll(pad + (Decimal(n) + after)) == n
    ensures Atoll(pad + (['+'] + Decimal(n) + after)) == n && Atoll(pad + (['-'] + Decimal(n) + after)) + n == 0
  {
    var d := Decimal(n) + after;
    assert IsDigit(d[0]) && d[0] == Decimal(n)[0];
    DecimalRoundTrip(n);
    DigitsStop(0, Decimal(n), after);
    SkipSpaceSkips(pad, d);
    SkipSpaceSkips(pad, ['+'] + Decimal(n) + after);
    SkipSpaceSkips(pad, ['-'] + Decimal(n) + after);
    assert (['+'] + Decimal(n) + after)[1..] == d && (['-'] + Decimal(n) + after)[1..] == d;
    hide Digits, Decimal, HasInk;
  }

  lemma {:induction false} SkipSpaceSkips(t: Text, after: Text)
    requires !HasInk(t)
    ensures SkipSpace(t + after) == SkipSpace(after)
    decreases |t|
  {
    if t == [] {
      assert t + after == after;
    } else {
      assert IsSpace(t[0]);
      assert forall i :: 0 <= i < |t[1..]| ==> t[1..][i] == t[i + 1];
      hide IsSpace;
      SkipSpaceSkips(t[1..], after);
      assert (t + after)[0] == t[0] && (t + after)[1..] == t[1..] + after;
    }
  }

  /** What a line counts is settled when it has arrived exactly if it is legible: otherwise atoll reads on, into
      bytes that may arrive later. */
  lemma LegibleIsSettled(line: Text)
    requires Find(line, '\t') < |line|
    ensures var tab := Find(line, '\t');
            (forall after :: Atoll(line[tab..] + CRLF + after) == Atoll(line[tab..] + CRLF)) <==> Legible(line)
  {
    var t := line[Find(line, '\t')..];
    if Legible(line) {
      forall after ensures Atoll(t + CRLF + after) == Atoll(t + CRLF) {
        assert t + CRLF + after == t + (CRLF + after);
        AtollStops(t, CRLF + after);
        AtollStops(t, CRLF);
      }
    } else {
      NextNumberIsRead(t);
      assert Atoll(t + CRLF + ['1']) != Atoll(t + CRLF);
    }
  }

  lemma NextNumberIsRead(t: Text)
    requires !HasInk(t)
    ensures Atoll(t + CRLF + ['1']) == 1 && Atoll(t + CRLF) == 0
  {
    var one: Text := ['1'];
    assert !HasInk(t + CRLF) by {
      forall i | 0 <= i < |t + CRLF| ensures IsSpace((t + CRLF)[i]) {
        assert i < |t| ==> IsSpace(t[i]);
      }
    }
    SkipSpaceSkips(t + CRLF, one);
    SkipSpaceSkips(t + CRLF, []);
    assert t + CRLF + [] == t + CRLF;
    assert SkipSpace(one) == one && Digits(0, one) == Digits(1, one[1..]) == 1;
  }

  predicate HasNumber(line: Text) {
    var tab := Find(line, '\t');
    tab + 1 < |line| && forall i :: tab < i < |line| ==> IsDigit(line[i])
  }

  /** The number behind the tab, whatever follows the line. */
  lemma NumberStaysInLine(line: Text, after: Text)
    requires HasNumber(line) && after != [] && after[0] == '\r'
    ensures var tab := Find(line, '\t');
            Atoll((line + after)[tab..]) == Digits(0, line[tab + 1..])
    ensures Legible(line)
  {
    var tab := Find(line, '\t');
    var t, digits := (line + after)[tab..], line[tab + 1..];
    assert t[1..] == digits + after;
    assert IsDigit(t[1..][0]);
    assert SkipSpace(t) == SkipSpace(t[1..]) == t[1..];
    DigitsStop(0, digits, after);
    assert line[tab..][1] == line[tab + 1] && !IsSpace(line[tab + 1]);
  }

  lemma SameNumber(s: Text, more: Text, tab: nat, crlf: nat)
    requires tab <= crlf < |s| && s[crlf] == '\r' && HasInk(s[tab..crlf])
    ensures Atoll((s + more)[tab..]) == Atoll(s[tab..])
  {
    hide Atoll, HasInk;
    var t, after := s[tab..crlf], s[crlf..];
    assert s[tab..] == t + after && (s + more)[tab..] == t + (after + more);
    AtollStops(t, after);
    AtollStops(t, after + more);
  }

  lemma TakeLineStable(m: Counts, s: Text, more: Text)
    requires FindCRLF(s) >= 0 && Legible(s[..FindCRLF(s)])
    ensures TakeLine(m, s + more, FindCRLF(s)) == TakeLine(m, s, FindCRLF(s))
  {
    var crlf := FindCRLF(s);
    var line := s[..crlf];
    var tab := Find(line, '\t');
    hide FindCRLF, Find, Atoll, HasInk;
    assert (s + more)[..crlf] == line && (s + more)[..tab] == s[..tab];
    if tab < crlf {
      assert line[tab..] == s[tab..crlf];
      SameNumber(s, more, tab, crlf);
    }
  }

  lemma {:induction false} ConsumeResumes(m: Counts, s: Text, more: Text)
    requires WellFormed(s)
    ensures var (m', rest) := Consume(m, s); Consume(m, s + more) == Consume(m', rest + more)
    decreases |s|
  {
    hide TakeLine, Legible;
    var crlf := FindCRLF(s);
    if crlf >= 0 {
      FindCRLFStable(s, more);
      TakeLineStable(m, s, more);
      assert (s + more)[crlf + 2..] == s[crlf + 2..] + more;
      ConsumeResumes(TakeLine(m, s, crlf), s[crlf + 2..], more);
    }
  }

  /** However a well-formed stream is cut into chunks, a receiver counts the same. */
  lemma {:induction false} ChunkIndependent(m: Counts, s: Text, chunks: seq<Text>)
    requires WellFormed(s + Concat(chunks))
    ensures var (m', rest) := Consume(m, s); ConsumeAll(m', rest, chunks) == Consume(m, s + Concat(chunks))
    decreases |chunks|
  {
    hide Consume, WellFormed;
    WellFormedPrefix(s, Concat(chunks));
    if chunks == [] {
      assert s + Concat(chunks) == s;
    } else {
      assert s + chunks[0] + Concat(chunks[1..]) == s + Concat(chunks);
      ConsumeResumes(m, s, chunks[0]);
      ChunkIndependent(m, s + chunks[0], chunks[1..]);
    }
  }

  // ----- a receiver adds up the records it is sent

  function AddAll(m: Counts, rs: seq<Record>): Counts
    decreases |rs|
  {
    if rs == [] then m
    else var k := CStr(rs[0].word); AddAll(m[k := Get(m, k) + rs[0].count], rs[1..])
  }

  predicate AreWords(rs: seq<Record>) {
    forall r :: r in rs ==> IsWord(r.word)
  }

  lemma LineOfRecord(r: Record, more: Text)
    requires IsWord(r.word)
    ensures var s := EncodeRecord(r) + more; var w := CStr(r.word); var crlf := FindCRLF(s);
            && crlf == |w| + 1 + |Decimal(r.count)|
            && s[crlf + 2..] == more
            && Legible(s[..crlf])
            && Find(s[..crlf], '\t') == |w| && s[..|w|] == w
            && Atoll(s[|w|..]) == r.count
  {
    var w, d := CStr(r.word), Decimal(r.count);
    var line := w + ['\t'] + d;
    var s := EncodeRecord(r) + more;
    assert s == line + CRLF + more;
    assert forall i :: 0 <= i < |w| ==> !IsSpace(w[i]);
    assert !HasCRLF(line) by {
      forall i ensures !IsCRLFAt(line, i) {
      }
    }
    FindCRLFAfter(line, more);
    assert s[..|line|] == line && s[|line| + 2..] == more;
    assert line[..|w|] == w && line[|w|] == '\t' && line[|w| + 1..] == d;
    FindAt(line, '\t', |w|);
    assert s == line + (CRLF + more);
    NumberStaysInLine(line, CRLF + more);
    DecimalRoundTrip(r.count);
  }

  lemma TakeRecord(m: Counts, r: Record, more: Text)
    requires IsWord(r.word)
    ensures var s := EncodeRecord(r) + more; var k := CStr(r.word); var crlf := FindCRLF(s);
            && crlf >= 0 && Legible(s[..crlf]) && s[crlf + 2..] == more
            && TakeLine(m, s, crlf) == m[k := Get(m, k) + r.count]
  {
    hide EncodeRecord, Legible, Atoll, CStr, IsWord;
    LineOfRecord(r, more);
  }

  lemma {:induction false} RecordsAreWellFormed(rs: seq<Record>)
    requires AreWords(rs)
    ensures WellFormed(EncodeRecords(rs))
    decreases |rs|
  {
    hide EncodeRecord, Legible, TakeLine, CStr, IsWord;
    if rs != [] {
      TakeRecord(map[], rs[0], EncodeRecords(rs[1..]));
      RecordsAreWellFormed(rs[1..]);
    }
  }

  lemma {:induction false} ConsumeRecords(m: Counts, rs: seq<Record>)
    requires AreWords(rs)
    ensures Consume(m, EncodeRecords(rs)) == (AddAll(m, rs), [])
    decreases |rs|
  {
    hide EncodeRecord, Legible, TakeLine, CStr, IsWord, Get;
    if rs != [] {
      var r, rest := rs[0], rs[1..];
      var k := CStr(r.word);
      TakeRecord(m, r, EncodeRecords(rest));
      ConsumeRecords(m[k := Get(m, k) + r.count], rest);
    }
  }

  function KeyTotal(rs: seq<Record>, k: Text): nat {
    if rs == [] then 0 else (if CStr(rs[0].word) == k then rs[0].count else 0) + KeyTotal(rs[1..], k)
  }

  lemma {:induction false} AddAllTotals(m: Counts, rs: seq<Record>, k: Text)
    ensures Get(AddAll(m, rs), k) == Get(m, k) + KeyTotal(rs, k)
    ensures k in AddAll(m, rs) <==> k in m || exists r :: r in rs && CStr(r.word) == k
    decreases |rs|
  {
    hide CStr;
    if rs != [] {
      var k0 := CStr(rs[0].word);
      AddAllTotals(m[k0 := Get(m, k0) + rs[0].count], rs[1..], k);
      assert rs == [rs[0]] + rs[1..];
    }
  }

  /** A receiver that is sent `rs`, in whatever chunks, ends with the total of each key. */
  lemma ReceiverTotals(rs: seq<Record>, chunks: seq<Text>, k: Text)
    requires AreWords(rs) && Concat(chunks) == EncodeRecords(rs)
    ensures var (m, rest) := ConsumeAll(map[], [], chunks);
            && rest == []
            && Get(m, k) == KeyTotal(rs, k)
            && (k in m <==> exists r :: r in rs && CStr(r.word) == k)
  {
    assert Consume(map[], []) == (map[], []);
    assert [] + Concat(chunks) == Concat(chunks);
    hide EncodeRecords, AddAll, WellFormed, Consume, ConsumeAll, Concat, CStr, AreWords, KeyTotal;
    RecordsAreWellFormed(rs);
    ConsumeRecords(map[], rs);
    ChunkIndependent(map[], [], chunks);
    AddAllTotals(map[], rs, k);
  }

  // ----- several senders: each connection has its own buffer, and one map is shared

  lemma TakeLineAdds(m: Counts, s: Text, crlf: nat, k: Text)
    requires crlf <= |s|
    ensures Get(TakeLine(m, s, crlf), k) == Get(m, k) + Get(TakeLine(map[], s, crlf), k)
    ensures k in TakeLine(m, s, crlf) <==> k in m || k in TakeLine(map[], s, crlf)
  {
    hide Find, Atoll;
  }

  /** What bytes add to a map does not depend on the map. */
  lemma {:induction false} ConsumeAdds(m: Counts, s: Text, k: Text)
    ensures var (m', rest), (alone, rest') := Consume(m, s), Consume(map[], s);
            rest == rest' && Get(m', k) == Get(m, k) + Get(alone, k) && (k in m' <==> k in m || k in alone)
    decreases |s|
  {
    hide TakeLine;
    var crlf := FindCRLF(s);
    if crlf >= 0 {
      TakeLineAdds(m, s, crlf, k);
      ConsumeAdds(TakeLine(m, s, crlf), s[crlf + 2..], k);
      ConsumeAdds(TakeLine(map[], s, crlf), s[crlf + 2..], k);
    }
    hide Get, FindCRLF;
  }

  lemma {:induction false} ConsumeAllAdds(m: Counts, rest: Text, chunks: seq<Text>, k: Text)
    ensures var (m', r), (alone, r') := ConsumeAll(m, rest, chunks), ConsumeAll(map[], rest, chunks);
            r == r' && Get(m', k) == Get(m, k) + Get(alone, k) && (k in m' <==> k in m || k in alone)
    decreases |chunks|
  {
    hide Consume;
    if chunks != [] {
      ConsumeAdds(m, rest + chunks[0], k);
      ConsumeAllAdds(Consume(m, rest + chunks[0]).0, Consume(m, rest + chunks[0]).1, chunks[1..], k);
      ConsumeAllAdds(Consume(map[], rest + chunks[0]).0, Consume(map[], rest + chunks[0]).1, chunks[1..], k);
    }
  }

  /** A chunk arrives on the connection of a sender. */
  datatype Arrival = Arrival(from: nat, chunk: Text)

  predicate FromSenders(arrivals: seq<Arrival>, n: nat) { forall a :: a in arrivals ==> a.from < n }

  function ReceiveAll(m: Counts, rests: seq<Text>, arrivals: seq<Arrival>): (r: (Counts, seq<Text>))
    requires FromSenders(arrivals, |rests|)
    ensures |r.1| == |rests|
    decreases |arrivals|
  {
    if arrivals == [] then (m, rests)
    else
      var a := arrivals[0];
      var (m', rest) := Consume(m, rests[a.from] + a.chunk);
      ReceiveAll(m', rests[a.from := rest], arrivals[1..])
  }

  function ChunksFrom(arrivals: seq<Arrival>, j: nat): seq<Text> {
    if arrivals == [] then []
    else (if arrivals[0].from == j then [arrivals[0].chunk] else []) + ChunksFrom(arrivals[1..], j)
  }

  /** What the chunks of one sender come to, on their own. */
  function Alone(rests: seq<Text>, arrivals: seq<Arrival>, j: nat): (Counts, Text)
    requires j < |rests|
  {
    ConsumeAll(map[], rests[j], ChunksFrom(arrivals, j))
  }

  function SumAlone(rests: seq<Text>, arrivals: seq<Arrival>, k: Text, n: nat): int
    requires n <= |rests|
  {
    if n == 0 then 0 else SumAlone(rests, arrivals, k, n - 1) + Get(Alone(rests, arrivals, n - 1).0, k)
  }

  predicate AnyAlone(rests: seq<Text>, arrivals: seq<Arrival>, k: Text, n: nat)
    requires n <= |rests|
  {
    n > 0 && (AnyAlone(rests, arrivals, k, n - 1) || k in Alone(rests, arrivals, n - 1).0)
  }

  /** An arrival is one sender's affair. */
  lemma AloneAfter(rests: seq<Text>, arrivals: seq<Arrival>, j: nat, k: Text)
    requires arrivals != [] && FromSenders(arrivals, |rests|) && j < |rests| && arrivals[0].from < |rests|
    ensures var a := arrivals[0];
            var (z, rest) := Consume(map[], rests[a.from] + a.chunk);
            var before, after := Alone(rests, arrivals, j), Alone(rests[a.from := rest], arrivals[1..], j);
            && before.1 == after.1
            && Get(before.0, k) == Get(after.0, k) + (if j == a.from then Get(z, k) else 0)
            && (k in before.0 <==> k in after.0 || (j == a.from && k in z))
  {
    hide Consume;
    var a := arrivals[0];
    var (z, rest) := Consume(map[], rests[a.from] + a.chunk);
    var cs := ChunksFrom(arrivals[1..], j);
    if j == a.from {
      assert ChunksFrom(arrivals, j) == [a.chunk] + cs && ([a.chunk] + cs)[1..] == cs;
      ConsumeAllAdds(z, rest, cs, k);
    } else {
      assert ChunksFrom(arrivals, j) == [] + cs == cs;
    }
  }

  lemma {:induction false} SumAfter(rests: seq<Text>, arrivals: seq<Arrival>, k: Text, n: nat)
    requires arrivals != [] && FromSenders(arrivals, |rests|) && n <= |rests| && arrivals[0].from < |rests|
    ensures var a := arrivals[0];
            var (z, rest) := Consume(map[], rests[a.from] + a.chunk);
            var rests' := rests[a.from := rest];
            && SumAlone(rests, arrivals, k, n) == SumAlone(rests', arrivals[1..], k, n) + (if a.from < n then Get(z, k) else 0)
            && (AnyAlone(rests, arrivals, k, n) <==> AnyAlone(rests', arrivals[1..], k, n) || (a.from < n && k in z))
    decreases n
  {
    hide Consume, Alone, Get;
    if n > 0 {
      AloneAfter(rests, arrivals, n - 1, k);
      SumAfter(rests, arrivals, k, n - 1);
    }
  }

  /** However the chunks of several senders interleave, the map gets what each of them comes to on its own. */
  lemma {:induction false} InterleavingAdds(m: Counts, rests: seq<Text>, arrivals: seq<Arrival>, k: Text)
    requires FromSenders(arrivals, |rests|)
    ensures var (m', rests') := ReceiveAll(m, rests, arrivals);
            && Get(m', k) == Get(m, k) + SumAlone(rests, arrivals, k, |rests|)
            && (k in m' <==> k in m || AnyAlone(rests, arrivals, k, |rests|))
            && forall j :: 0 <= j < |rests| ==> rests'[j] == Alone(rests, arrivals, j).1
    decreases |arrivals|
  {
    if arrivals == [] {
      NothingAlone(rests, k, |rests|);
    } else {
      var a := arrivals[0];
      assert a in arrivals && forall x :: x in arrivals[1..] ==> x in arrivals;
      var rest := Consume(m, rests[a.from] + a.chunk).1;
      ConsumeAdds(m, rests[a.from] + a.chunk, k);
      SumAfter(rests, arrivals, k, |rests|);
      InterleavingAdds(Consume(m, rests[a.from] + a.chunk).0, rests[a.from := rest], arrivals[1..], k);
      forall j | 0 <= j < |rests| ensures Alone(rests, arrivals, j).1 == Alone(rests[a.from := rest], arrivals[1..], j).1 {
        AloneAfter(rests, arrivals, j, k);
      }
    }
    hide Consume, Alone, Get, SumAlone, AnyAlone;
  }

  lemma {:induction false} NothingAlone(rests: seq<Text>, k: Text, n: nat)
    requires n <= |rests|
    ensures SumAlone(rests, [], k, n) == 0 && !AnyAlone(rests, [], k, n)
    ensures forall j :: 0 <= j < |rests| ==> Alone(rests, [], j) == (map[], rests[j])
    decreases n
  {
    if n > 0 {
      NothingAlone(rests, k, n - 1);
    }
  }

  /** All that the senders send to a receiver. */
  function AllRecords(rss: seq<seq<Record>>): seq<Record> {
    if rss == [] then [] else AllRecords(rss[..|rss| - 1]) + rss[|rss| - 1]
  }

  lemma {:induction false} KeyTotalSplit(a: seq<Record>, b: seq<Record>, k: Text)
    ensures KeyTotal(a + b, k) == KeyTotal(a, k) + KeyTotal(b, k)
    decreases |a|
  {
    hide CStr;
    if a == [] {
      assert a + b == b;
    } else {
      KeyTotalSplit(a[1..], b, k);
      assert (a + b)[1..] == a[1..] + b && (a + b)[0] == a[0];
    }
  }

  /** Every sender's records have arrived in full, on its own connection. */
  ghost predicate AllArrived(rss: seq<seq<Record>>, arrivals: seq<Arrival>) {
    && FromSenders(arrivals, |rss|)
    && forall j :: 0 <= j < |rss| ==> AreWords(rss[j]) && Concat(ChunksFrom(arrivals, j)) == EncodeRecords(rss[j])
  }

  predicate HasKey(rs: seq<Record>, k: Text) { exists r :: r in rs && CStr(r.word) == k }

  lemma {:induction false} SumOfTotals(rss: seq<seq<Record>>, arrivals: seq<Arrival>, rests: seq<Text>, k: Text, n: nat)
    requires AllArrived(rss, arrivals) && |rests| == |rss| && (forall j :: 0 <= j < |rests| ==> rests[j] == []) && n <= |rss|
    ensures SumAlone(rests, arrivals, k, n) == KeyTotal(AllRecords(rss[..n]), k)
    ensures AnyAlone(rests, arrivals, k, n) <==> HasKey(AllRecords(rss[..n]), k)
    decreases n
  {
    hide EncodeRecords, ConsumeAll, AreWords, Get, CStr;
    if n > 0 {
      SumOfTotals(rss, arrivals, rests, k, n - 1);
      ReceiverTotals(rss[n - 1], ChunksFrom(arrivals, n - 1), k);
      assert rss[..n][..n - 1] == rss[..n - 1];
      KeyTotalSplit(AllRecords(rss[..n - 1]), rss[n - 1], k);
      HasKeySplit(AllRecords(rss[..n - 1]), rss[n - 1], k);
      hide KeyTotal;
    }
  }

  lemma HasKeySplit(a: seq<Record>, b: seq<Record>, k: Text)
    ensures HasKey(a + b, k) <==> HasKey(a, k) || HasKey(b, k)
  {
    hide CStr;
    if HasKey(a, k) { var r :| r in a && CStr(r.word) == k; assert r in a + b; }
    if HasKey(b, k) { var r :| r in b && CStr(r.word) == k; assert r in a + b; }
  }

  function Empty(n: nat): seq<Text> { seq(n, _ => []) }

  /** A receiver with any number of senders, whose chunks arrive interleaved in any way, ends with the total of
      each key over all of them. */
  lemma ReceiverOfSeveral(rss: seq<seq<Record>>, arrivals: seq<Arrival>, k: Text)
    requires AllArrived(rss, arrivals)
    ensures var (m, _) := ReceiveAll(map[], Empty(|rss|), arrivals);
            Get(m, k) == KeyTotal(AllRecords(rss), k) && (k in m <==> HasKey(AllRecords(rss), k))
  {
    InterleavingAdds(map[], Empty(|rss|), arrivals, k);
    SumOfTotals(rss, arrivals, Empty(|rss|), k, |rss|);
    assert rss[..|rss|] == rss;
    hide AllArrived, SumAlone, AnyAlone, KeyTotal, HasKey;
  }

  predicate HasTab(line: Text) {
    Find(line, '\t') < |line|
  }

  /** Some complete line of `s` has no tab, which makes the receiver hang up. */
  predicate LacksTab(s: Text)
    decreases |s|
  {
    var crlf := FindCRLF(s);
    crlf >= 0 && (!HasTab(s[..crlf]) || LacksTab(s[crlf + 2..]))
  }

  /** The receiver object. */
  class Receiver {
    var wordcounts: Counts

    constructor ()
      ensures wordcounts == map[]
    {
      wordcounts := map[];
    }

    /** The body of onMessage's loop, for the line that ends at `crlf`. */
    method OnLine(buf: Buffer, crlf: nat) returns (hasTab: bool)
      requires buf.Valid() && IsCRLFAt(buf.Content(), crlf)
      modifies this, buf`readerIndex, buf`writerIndex
      ensures buf.Valid() && buf.Content() == old(buf.Content())[crlf + 2..]
      ensures wordcounts == TakeLine(old(wordcounts), old(buf.Content()), crlf)
      ensures hasTab == HasTab(old(buf.Content())[..crlf])
    {
      hide Atoll;
      var content := buf.Content();
      var tab := Find(content[..crlf], '\t');
      hasTab := tab != crlf;
      if hasTab {
        var word := content[..tab];
        var cnt := Atoll(content[tab..]);
        wordcounts := wordcounts[word := Get(wordcounts, word) + cnt];
      }
      buf.Retrieve(crlf + 2);
    }

    /** onMessage; `shutdown` tells whether a line without a tab was seen. */
    method OnMessage(buf: Buffer) returns (shutdown: bool)
      requires buf.Valid()
      modifies this, buf`readerIndex, buf`writerIndex
      ensures buf.Valid() && (wordcounts, buf.Content()) == Consume(old(wordcounts), old(buf.Content()))
      ensures shutdown <==> LacksTab(old(buf.Content()))
    {
      hide TakeLine, HasTab;
      shutdown := false;
      var crlf := FindCRLF(buf.Content());
      while crlf >= 0
        invariant buf.Valid() && crlf == FindCRLF(buf.Content())
        invariant Consume(wordcounts, buf.Content()) == Consume(old(wordcounts), old(buf.Content()))
        invariant shutdown || LacksTab(buf.Content()) <==> LacksTab(old(buf.Content()))
        decreases buf.ReadableBytes()
      {
        var hasTab := OnLine(buf, crlf);
        shutdown := shutdown || !hasTab;
        crlf := FindCRLF(buf.Content());
      }
    }
  }
}
