/** Local time: a zone is a table of transitions, each of which starts a local time with its own
    offset from UTC, and a local time in force before the first of them. */
module TimeZone {

  datatype Localtime = Localtime(gmtOffset: int, isDst: bool)
  datatype Transition = Transition(gmttime: int, localtime: int, localtimeIdx: nat)
  datatype Zone = Zone(transitions: seq<Transition>, localtimes: seq<Localtime>)

  /** What readTimeZoneFile builds: a transition's local time is its own offset after its UTC time. */
  predicate Decoded(z: Zone) {
    && z.localtimes != []
    && forall i :: 0 <= i < |z.transitions| ==>
         && z.transitions[i].localtimeIdx < |z.localtimes|
         && z.transitions[i].localtime == z.transitions[i].gmttime + z.localtimes[z.transitions[i].localtimeIdx].gmtOffset
  }

  /** Which of the two times of a transition a search compares. */
  datatype Comp = ByGmt | ByLocal

  function Key(tr: Transition, comp: Comp): int {
    if comp == ByGmt then tr.gmttime else tr.localtime
  }

  /** std::lower_bound: the first transition that is not before the key. */
  function LowerBound(ts: seq<Transition>, key: int, comp: Comp): (k: nat)
    ensures k <= |ts|
    ensures forall i :: 0 <= i < k ==> Key(ts[i], comp) < key
    ensures k < |ts| ==> key <= Key(ts[k], comp)
  {
    if ts == [] || !(Key(ts[0], comp) < key) then 0 else 1 + LowerBound(ts[1..], key, comp)
  }

  function FindLocaltime(z: Zone, key: int, comp: Comp): Localtime
    requires Decoded(z)
  {
    if z.transitions == [] || key < Key(z.transitions[0], comp) then
      z.localtimes[0]
    else
      var k := LowerBound(z.transitions, key, comp);
      if k < |z.transitions| then
        var i := if key != Key(z.transitions[k], comp) then k - 1 else k;
        assert i >= 0;
        z.localtimes[z.transitions[i].localtimeIdx]
      else
        z.localtimes[z.transitions[|z.transitions| - 1].localtimeIdx]
  }

  /** struct tm: the fields that gmtime_r fills stand for a number of local seconds. */
  datatype Tm = Tm(seconds: int, isDst: bool)

  function Hour(seconds: int): int { seconds % 86400 / 3600 }

  function Minute(seconds: int): int { seconds % 3600 / 60 }

  function ToLocalTime(z: Zone, t: int): Tm
    requires Decoded(z)
  {
    var local := FindLocaltime(z, t, ByGmt);
    Tm(t + local.gmtOffset, local.isDst)
  }

  function FromLocalTime(z: Zone, tm: Tm): int
    requires Decoded(z)
  {
    var local := FindLocaltime(z, tm.seconds, ByLocal);
    var again := ToLocalTime(z, tm.seconds - local.gmtOffset);
    var seconds :=
      if tm.isDst && !again.isDst && Hour(again.seconds) == Hour(tm.seconds) && Minute(again.seconds) == Minute(tm.seconds)
      then tm.seconds - 3600 else tm.seconds;
    seconds - local.gmtOffset
  }

  // ----- the search

  /** The local time in force after transition `i`; the first one of all is in force before any. */
  function After(z: Zone, i: int): Localtime
    requires Decoded(z) && -1 <= i < |z.transitions|
  {
    if i == -1 then z.localtimes[0] else z.localtimes[z.transitions[i].localtimeIdx]
  }

  /** Transition `i` is the last one not after the key, or -1 if the key is before all of them. */
  predicate Governs(z: Zone, key: int, comp: Comp, i: int) {
    && -1 <= i < |z.transitions|
    && (i >= 0 ==> Key(z.transitions[i], comp) <= key)
    && (i + 1 < |z.transitions| ==> key < Key(z.transitions[i + 1], comp))
  }

  predicate Ordered(z: Zone, comp: Comp) {
    forall i, j :: 0 <= i < j < |z.transitions| ==> Key(z.transitions[i], comp) < Key(z.transitions[j], comp)
  }

  /** The search finds the last transition not after the key. */
  lemma FindLocaltimeIsLast(z: Zone, key: int, comp: Comp, i: int)
    requires Decoded(z) && Ordered(z, comp) && Governs(z, key, comp, i)
    ensures FindLocaltime(z, key, comp) == After(z, i)
  {
  }

  lemma GovernorIsIndex(z: Zone, key: int, comp: Comp, i: int)
    requires Governs(z, key, comp, i)
    ensures -1 <= i < |z.transitions|
  {
  }

  function Governor(z: Zone, key: int, comp: Comp): (i: int)
    requires Ordered(z, comp)
    ensures Governs(z, key, comp, i)
  {
    var k := LowerBound(z.transitions, key, comp);
    if k < |z.transitions| && Key(z.transitions[k], comp) == key then
      assert k + 1 < |z.transitions| ==> Key(z.transitions[k], comp) < Key(z.transitions[k + 1], comp); k
    else k - 1
  }

  // ----- the round trip

  /** Transitions are further apart than any two offsets differ. */
  predicate WellSpaced(z: Zone) {
    forall k, a, b :: 0 <= k < |z.transitions| - 1 && 0 <= a < |z.localtimes| && 0 <= b < |z.localtimes| ==>
      z.localtimes[a].gmtOffset - z.localtimes[b].gmtOffset < z.transitions[k + 1].gmttime - z.transitions[k].gmttime
  }

  lemma GapExceeds(z: Zone, k: int, i: int, j: int)
    requires Decoded(z) && WellSpaced(z) && 0 <= k < |z.transitions| - 1
    requires -1 <= i < |z.transitions| && -1 <= j < |z.transitions|
    ensures After(z, i).gmtOffset - After(z, j).gmtOffset < z.transitions[k + 1].gmttime - z.transitions[k].gmttime
  {
    var a := if i == -1 then 0 else z.transitions[i].localtimeIdx;
    var b := if j == -1 then 0 else z.transitions[j].localtimeIdx;
    assert z.localtimes[a].gmtOffset - z.localtimes[b].gmtOffset < z.transitions[k + 1].gmttime - z.transitions[k].gmttime;
  }

  lemma {:induction false} WellSpacedIsOrderedUpTo(z: Zone, i: int, j: int)
    requires Decoded(z) && WellSpaced(z) && 0 <= i < j < |z.transitions|
    ensures z.transitions[i].gmttime < z.transitions[j].gmttime
    ensures z.transitions[i].localtime < z.transitions[j].localtime
    decreases j - i
  {
    GapExceeds(z, j - 1, j - 1, j);
    GapExceeds(z, j - 1, j, j);
    if i < j - 1 {
      WellSpacedIsOrderedUpTo(z, i, j - 1);
    }
  }

  lemma WellSpacedIsOrdered(z: Zone)
    requires Decoded(z) && WellSpaced(z)
    ensures Ordered(z, ByGmt) && Ordered(z, ByLocal)
  {
    forall i, j | 0 <= i < j < |z.transitions|
      ensures Key(z.transitions[i], ByGmt) < Key(z.transitions[j], ByGmt)
      ensures Key(z.transitions[i], ByLocal) < Key(z.transitions[j], ByLocal)
    {
      WellSpacedIsOrderedUpTo(z, i, j);
    }
  }

  /** How far the clocks go back at transition `k`; negative if they go forward. */
  function Drop(z: Zone, k: int): int
    requires Decoded(z) && 0 <= k < |z.transitions|
  {
    After(z, k - 1).gmtOffset - After(z, k).gmtOffset
  }

  /** The kind of transition the code can undo: an hour of summer time ends. */
  predicate DstEnds(z: Zone, k: int)
    requires Decoded(z) && 0 <= k < |z.transitions|
  {
    After(z, k - 1).isDst && !After(z, k).isDst && Drop(z, k) == 3600
  }

  /** A time whose local time will come again after transition `k`. */
  predicate WillRepeat(z: Zone, t: int, k: int)
    requires Decoded(z) && 0 <= k < |z.transitions|
  {
    z.transitions[k].gmttime - Drop(z, k) <= t < z.transitions[k].gmttime
  }

  /** A time that does not repeat, the second pass of a repeated hour included. */
  lemma UnrepeatedRoundTrip(z: Zone, t: int, i: int)
    requires Decoded(z) && WellSpaced(z) && Governs(z, t, ByGmt, i)
    requires i + 1 < |z.transitions| ==> !WillRepeat(z, t, i + 1)
    ensures FromLocalTime(z, ToLocalTime(z, t)) == t
  {
    hide WellSpaced, Ordered, FindLocaltime, Hour, Minute;
    WellSpacedIsOrdered(z);
    FindLocaltimeIsLast(z, t, ByGmt, i);
    var tm := ToLocalTime(z, t);
    assert Governs(z, tm.seconds, ByLocal, i);
    FindLocaltimeIsLast(z, tm.seconds, ByLocal, i);
  }

  /** The first pass of a repeated stretch: the search lands after the transition, and only the
      correction by an hour can lead back. */
  lemma RepeatedRoundTrip(z: Zone, t: int, i: int)
    requires Decoded(z) && WellSpaced(z) && Governs(z, t, ByGmt, i)
    requires i + 1 < |z.transitions| && WillRepeat(z, t, i + 1)
    ensures FromLocalTime(z, ToLocalTime(z, t)) == t <==> DstEnds(z, i + 1)
  {
    hide WellSpaced, Ordered, FindLocaltime, Hour, Minute;
    WellSpacedIsOrdered(z);
    FindLocaltimeIsLast(z, t, ByGmt, i);
    var tm := ToLocalTime(z, t);
    if i + 2 < |z.transitions| {
      GapExceeds(z, i + 1, i, i + 2);
      GapExceeds(z, i + 1, i, i + 1);
    }
    assert Governs(z, tm.seconds, ByLocal, i + 1);
    FindLocaltimeIsLast(z, tm.seconds, ByLocal, i + 1);
    var back := t + Drop(z, i + 1);
    assert Governs(z, back, ByGmt, i + 1);
    FindLocaltimeIsLast(z, back, ByGmt, i + 1);
  }

  lemma OnlyNextRepeats(z: Zone, t: int, i: int, k: int)
    requires Decoded(z) && WellSpaced(z) && Governs(z, t, ByGmt, i)
    requires 0 <= k < |z.transitions| && WillRepeat(z, t, k)
    ensures k == i + 1
  {
    hide WellSpaced;
    if k < i {
      WellSpacedIsOrderedUpTo(z, k, i);
    } else if k > i + 1 {
      GapExceeds(z, k - 1, k - 1, k);
      if i + 1 < k - 1 { WellSpacedIsOrderedUpTo(z, i + 1, k - 1); }
    }
  }

  /** Exactly when a single time survives the way to local time and back. */
  lemma LocalRoundTrip(z: Zone, t: int)
    requires Decoded(z) && WellSpaced(z)
    ensures FromLocalTime(z, ToLocalTime(z, t)) == t <==>
            forall k :: 0 <= k < |z.transitions| && WillRepeat(z, t, k) ==> DstEnds(z, k)
  {
    hide *;
    WellSpacedIsOrdered(z);
    var i := Governor(z, t, ByGmt);
    GovernorIsIndex(z, t, ByGmt, i);
    forall k | 0 <= k < |z.transitions| && WillRepeat(z, t, k) ensures k == i + 1 {
      OnlyNextRepeats(z, t, i, k);
    }
    if i + 1 < |z.transitions| && WillRepeat(z, t, i + 1) {
      RepeatedRoundTrip(z, t, i);
    } else {
      UnrepeatedRoundTrip(z, t, i);
    }
  }

  /** Every time survives, both passes of every repeated hour included, exactly if the clocks of the
      zone go back only when an hour of summer time ends. */
  lemma ZoneRoundTrip(z: Zone)
    requires Decoded(z) && WellSpaced(z)
    ensures (forall t :: FromLocalTime(z, ToLocalTime(z, t)) == t) <==>
            (forall k :: 0 <= k < |z.transitions| && Drop(z, k) > 0 ==> DstEnds(z, k))
  {
    hide WellSpaced, FromLocalTime, ToLocalTime;
    if forall t :: FromLocalTime(z, ToLocalTime(z, t)) == t {
      forall k | 0 <= k < |z.transitions| && Drop(z, k) > 0 ensures DstEnds(z, k) {
        var t := z.transitions[k].gmttime - 1;
        LocalRoundTrip(z, t);
        assert FromLocalTime(z, ToLocalTime(z, t)) == t && WillRepeat(z, t, k);
      }
    }
    if forall k :: 0 <= k < |z.transitions| && Drop(z, k) > 0 ==> DstEnds(z, k) {
      forall t ensures FromLocalTime(z, ToLocalTime(z, t)) == t {
        LocalRoundTrip(z, t);
      }
    }
  }

  // ----- the conversions on their own

  /** Local time is ahead of UTC by the offset in force, and says whether that is summer time. */
  lemma ToLocalTimeIs(z: Zone, t: int, i: int)
    requires Decoded(z) && Ordered(z, ByGmt) && Governs(z, t, ByGmt, i)
    ensures ToLocalTime(z, t) == Tm(t + After(z, i).gmtOffset, After(z, i).isDst)
  {
    FindLocaltimeIsLast(z, t, ByGmt, i);
  }

  /** A time not marked as summer time is read with the offset of the last transition not after it in local time;
      one that no clock ever shows, therefore, with the offset before the gap. */
  lemma FromLocalTimeIs(z: Zone, x: int, i: int)
    requires Decoded(z) && Ordered(z, ByLocal) && Governs(z, x, ByLocal, i)
    ensures FromLocalTime(z, Tm(x, false)) == x - After(z, i).gmtOffset
  {
    FindLocaltimeIsLast(z, x, ByLocal, i);
  }

  /** The search in local time finds the latest time at which the clocks show `x`. */
  lemma LatestTime(z: Zone, x: int, t: int, i: int) returns (k: int)
    requires Decoded(z) && WellSpaced(z) && Governs(z, t, ByGmt, i) && x == t + After(z, i).gmtOffset
    ensures -1 <= k < |z.transitions| && Governs(z, x, ByLocal, k)
    ensures var last := x - After(z, k).gmtOffset; t <= last && Governs(z, last, ByGmt, k)
  {
    hide WellSpaced;
    if i + 1 < |z.transitions| && WillRepeat(z, t, i + 1) {
      k := i + 1;
      if i + 2 < |z.transitions| {
        GapExceeds(z, i + 1, i, i + 2);
        GapExceeds(z, i + 1, i, i + 1);
      }
    } else {
      k := i;
    }
  }

  lemma ReadAt(z: Zone, x: int, k: int)
    requires Decoded(z) && Ordered(z, ByGmt) && Ordered(z, ByLocal) && -1 <= k < |z.transitions|
    requires Governs(z, x, ByLocal, k) && Governs(z, x - After(z, k).gmtOffset, ByGmt, k)
    ensures var last := x - After(z, k).gmtOffset;
            && FromLocalTime(z, Tm(x, false)) == last && ToLocalTime(z, last) == Tm(x, After(z, k).isDst)
            && FromLocalTime(z, Tm(x, true)) == if After(z, k).isDst then last else last - 3600
  {
    hide Decoded, Ordered, Governs, FindLocaltime, ToLocalTime, Hour, Minute, After;
    FindLocaltimeIsLast(z, x, ByLocal, k);
    ToLocalTimeIs(z, x - After(z, k).gmtOffset, k);
  }

  /** For a local time that is not marked as summer time, the answer is the latest time at which the clocks show
      it; for one that is marked, an hour earlier, unless they show summer time then. */
  lemma LocalTimeIsReadLatest(z: Zone, x: int, t: int)
    requires Decoded(z) && WellSpaced(z) && ToLocalTime(z, t).seconds == x
    ensures var last := FromLocalTime(z, Tm(x, false));
            && t <= last && ToLocalTime(z, last).seconds == x
            && FromLocalTime(z, Tm(x, true)) == if ToLocalTime(z, last).isDst then last else last - 3600
  {
    hide *;
    WellSpacedIsOrdered(z);
    var i := Governor(z, t, ByGmt);
    GovernorIsIndex(z, t, ByGmt, i);
    ToLocalTimeIs(z, t, i);
    var k := LatestTime(z, x, t, i);
    ReadAt(z, x, k);
  }

  /** A zone whose summer time is half an hour, as on Lord Howe Island. */
  function HalfHourZone(): Zone {
    Zone([Transition(1000000, 1037800, 1)], [Localtime(39600, true), Localtime(37800, false)])
  }

  lemma HalfHourZoneIsZone()
    ensures var z := HalfHourZone();
            Decoded(z) && WellSpaced(z) && |z.transitions| == 1 && WillRepeat(z, 999999, 0) && !DstEnds(z, 0)
  {
  }

  /** Its last second before the clocks go back does not survive. */
  lemma HalfHourSummerTime()
    ensures var z := HalfHourZone();
            Decoded(z) && FromLocalTime(z, ToLocalTime(z, 999999)) != 999999
  {
    hide *;
    HalfHourZoneIsZone();
    LocalRoundTrip(HalfHourZone(), 999999);
  }
}
