// Which addresses survive printing and parsing, by the lengths of their runs of zeros.
module Ip6Runs {
  import opened Base
  import opened Ip6Spec
  import opened Ip6Exact

  // Zeros before place i, and those of them in run number k.
  function ZeroCount(a: seq<nat>, i: nat): nat
    requires i <= |a|
  {
    if i == 0 then 0 else ZeroCount(a, i - 1) + if a[i - 1] == 0 then 1 else 0
  }

  function RunLength(a: seq<nat>, k: nat, i: nat): nat
    requires i <= |a|
  {
    if i == 0 then 0 else RunLength(a, k, i - 1) + if a[i - 1] == 0 && Runs(a, i) == k then 1 else 0
  }

  // The runs before place i: how many, the lengths of the first two, the zeros in all, and whether the
  // last one reaches place i.
  datatype Tally = Tally(runs: nat, first: nat, second: nat, zeros: nat, open: bool)

  function TallyOf(a: seq<nat>, i: nat): Tally
    requires i <= |a|
  {
    Tally(Runs(a, i), RunLength(a, 1, i), RunLength(a, 2, i), ZeroCount(a, i), i > 0 && a[i - 1] == 0)
  }

  function NextTally(t: Tally, zero: bool): Tally {
    var runs := if zero && !t.open then t.runs + 1 else t.runs;
    Tally(runs, t.first + (if zero && runs == 1 then 1 else 0), t.second + (if zero && runs == 2 then 1 else 0),
          t.zeros + (if zero then 1 else 0), zero)
  }

  lemma TallyStep(a: seq<nat>, i: nat)
    requires i < |a|
    ensures TallyOf(a, i + 1) == NextTally(TallyOf(a, i), a[i] == 0)
  {
  }

  // Runs are apart, so they take up room.
  ghost predicate Room(t: Tally, i: nat) {
    && (t.open ==> t.runs > 0)
    && (t.runs == 0 ==> t.zeros == 0) && (t.first > 0 <==> t.runs > 0) && (t.second > 0 <==> t.runs > 1)
    && t.first + t.second <= t.zeros && (t.runs <= 2 ==> t.zeros == t.first + t.second)
    && (t.runs > 2 ==> t.zeros >= t.first + t.second + t.runs - 2)
    && (t.runs > 0 ==> t.zeros + t.runs - 1 + (if t.open then 0 else 1) <= i)
  }

  // ------------------------------------------------------------------------------------------
  // The scan beside the tally

  // A run is being counted, without a break.
  ghost predicate Counting(a: seq<nat>, i: nat, s: Scan, n: nat) {
    s.iFirst < GROUPS && s.n == n && s.iFirst + n == i && AllZero(a, s.iFirst, n)
  }

  // The scan has chosen a run of n zeros.
  ghost predicate Chose(a: seq<nat>, s: Scan, n: nat) {
    s.maxN == n && AllZero(a, s.iMax, n)
  }

  // It has gone on counting from a second run that was too short, past the place where that ended.
  ghost predicate Past(a: seq<nat>, i: nat, s: Scan, t: Tally) {
    s.iFirst + t.second < i <= |a| && a[s.iFirst + t.second] != 0 && s.iFirst < GROUPS && s.n == t.zeros - t.first
  }

  // It has chosen a range that is not all zero, and too long a one to give up.
  ghost predicate Wrong(a: seq<nat>, i: nat, s: Scan, t: Tally) {
    && !AllZero(a, s.iMax, s.maxN) && s.maxN > t.first && t.zeros > 2 * t.first && t.second <= t.first
    && s.maxN >= 2 && t.runs >= 3 && i >= 6 && s.n <= i - 6
  }

  ghost predicate Early(a: seq<nat>, i: nat, s: Scan, t: Tally)
    requires i <= |a| == GROUPS
  {
    if t.runs == 0 then s == Scan(GROUPS, 0, GROUPS, 0)
    else if t.runs == 1 then
      if t.open && i < GROUPS then s.maxN == 0 && Counting(a, i, s, t.first)
      else Chose(a, s, t.first) && s.iFirst == GROUPS && s.n == 0
    else if t.second <= t.first then
      && Chose(a, s, t.first) && s.n == t.second
      && (if t.open then Counting(a, i, s, t.second) else Past(a, i, s, t))
    else if t.open && i < GROUPS then
      Chose(a, s, t.first) && Counting(a, i, s, t.second)
    else
      Chose(a, s, t.second) && s.iFirst == GROUPS && s.n == 0
  }

  // With a third run and a longer second one, no later choice is made but of a run without a break.
  ghost predicate LateGood(a: seq<nat>, i: nat, s: Scan, t: Tally)
    requires i <= |a| == GROUPS
  {
    && t.second > t.first && s.maxN >= 2 && AllZero(a, s.iMax, s.maxN)
    && (s.iFirst < GROUPS ==> s.n <= t.zeros - t.first - t.second)
    && (t.runs == 3 && t.open && s.iFirst < GROUPS ==> Counting(a, i, s, s.n))
    && (t.runs == 3 && !t.open && s.iFirst < GROUPS ==> s.n <= s.maxN)
  }

  ghost predicate Late(a: seq<nat>, i: nat, s: Scan, t: Tally)
    requires i <= |a| == GROUPS
  {
    || LateGood(a, i, s, t)
    || Wrong(a, i, s, t)
    || (t.second <= t.first && Chose(a, s, t.first) && Past(a, i, s, t)
        && (!t.open || i == GROUPS ==> s.n <= s.maxN))
  }

  ghost predicate Beside(a: seq<nat>, i: nat, s: Scan, t: Tally)
    requires i <= |a| == GROUPS
  {
    ScanOk(s, i) && Room(t, i) && if t.runs <= 2 then Early(a, i, s, t) else Late(a, i, s, t)
  }

  lemma RoomStep(t: Tally, i: nat, zero: bool)
    requires Room(t, i)
    ensures Room(NextTally(t, zero), i + 1)
  {
  }

  lemma EarlyStep(a: seq<nat>, i: nat, s: Scan, t: Tally)
    requires i < |a| == GROUPS && Room(t, i) && t.runs <= 2 && Early(a, i, s, t) && t.open == (i > 0 && a[i - 1] == 0)
    requires var t' := NextTally(t, a[i] == 0); t'.runs <= 2
    ensures Early(a, i + 1, ScanStep(a, i, s), NextTally(t, a[i] == 0))
  {
  }

  lemma ThirdStep(a: seq<nat>, i: nat, s: Scan, t: Tally)
    requires i < |a| == GROUPS && Room(t, i) && t.runs == 2 && Early(a, i, s, t) && !t.open && a[i] == 0
    ensures Late(a, i + 1, ScanStep(a, i, s), NextTally(t, true))
  {
  }

  lemma LateStep(a: seq<nat>, i: nat, s: Scan, t: Tally)
    requires i < |a| == GROUPS && ScanOk(s, i) && Room(t, i) && t.runs >= 3 && Late(a, i, s, t)
    ensures Late(a, i + 1, ScanStep(a, i, s), NextTally(t, a[i] == 0))
  {
    if LateGood(a, i, s, t) { LateGoodStep(a, i, s, t); }
  }

  lemma LateGoodStep(a: seq<nat>, i: nat, s: Scan, t: Tally)
    requires i < |a| == GROUPS && ScanOk(s, i) && Room(t, i) && t.runs >= 3 && LateGood(a, i, s, t)
    ensures LateGood(a, i + 1, ScanStep(a, i, s), NextTally(t, a[i] == 0))
  {
  }

  lemma BesideStart(a: seq<nat>)
    requires |a| == GROUPS
    ensures Beside(a, 0, Scanned(a, 0), TallyOf(a, 0))
  {
  }

  lemma {:induction false} ScanBeside(a: seq<nat>, i: nat)
    requires i <= |a| == GROUPS
    ensures Beside(a, i, Scanned(a, i), TallyOf(a, i))
    decreases i
  {
    hide Beside, ScanStep, NextTally;
    ScanBounds(a, i);
    if i == 0 {
      BesideStart(a);
    } else {
      ScanBeside(a, i - 1);
      TallyStep(a, i - 1);
      BesideStep(a, i - 1, Scanned(a, i - 1), TallyOf(a, i - 1));
    }
  }

  lemma BesideStep(a: seq<nat>, i: nat, s: Scan, t: Tally)
    requires i < |a| == GROUPS && Beside(a, i, s, t) && t.open == (i > 0 && a[i - 1] == 0)
    requires ScanOk(ScanStep(a, i, s), i + 1)
    ensures Beside(a, i + 1, ScanStep(a, i, s), NextTally(t, a[i] == 0))
  {
    hide Early, Late, Room, ScanStep;
    RoomStep(t, i, a[i] == 0);
    if NextTally(t, a[i] == 0).runs <= 2 {
      EarlyStep(a, i, s, t);
    } else if t.runs <= 2 {
      ThirdStep(a, i, s, t);
    } else {
      LateStep(a, i, s, t);
    }
  }

  // The condition a reader can see in the address: its second run of zeros is longer than its first, or
  // no more zeros follow its first run than are in it.
  predicate Survives(a: seq<nat>)
    requires |a| == GROUPS
  {
    || RunLength(a, 2, GROUPS) > RunLength(a, 1, GROUPS)
    || ZeroCount(a, GROUPS) <= 2 * RunLength(a, 1, GROUPS)
  }

  // Printing and parsing give the address back if and only if Survives holds.
  lemma RoundTripByRuns(a: seq<nat>)
    requires IsAddress(a)
    ensures ChoiceOk(a) <==> Survives(a)
    ensures Parse(Format(a)) == Some(a) <==> Survives(a)
  {
    hide Parse, Format;
    ScanBeside(a, GROUPS);
    RoundTrip(a);
  }
}
