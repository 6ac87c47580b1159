/** The system-wide scan rate gate (infra/file_safety.py, _wait_for_rate_slot).

    Time is the real line, in seconds. The clock readings and the length of each sleep
    are inputs: a call takes one reading, or two when it sleeps. */
module ScanGate {

  /** One call: the reading on entry and the reading after the sleep, if it sleeps. */
  datatype Call = Call(entry: real, woken: real)

  /** All stamps so far, and how many of the oldest the deque has dropped. */
  datatype State = State(stamps: seq<real>, dropped: nat) {
    predicate Valid() { dropped <= |stamps| }
    function Length(): nat requires Valid() { |stamps| - dropped }
  }

  /** How many are dropped once everything older than one second at `now` is gone. */
  function Evict(h: seq<real>, from: nat, now: real): (k: nat)
    requires from <= |h|
    ensures from <= k <= |h|
    ensures forall i | from <= i < k :: h[i] < now - 1.0
    ensures k < |h| ==> h[k] >= now - 1.0
    decreases |h| - from
  {
    if from < |h| && h[from] < now - 1.0 then Evict(h, from + 1, now) else from
  }

  /** How long the gate sleeps when the deque starts at k; zero means it does not. */
  function Wait(h: seq<real>, k: nat, now: real, rate: nat): (w: real)
    requires k <= |h| && rate >= 1
    ensures w >= 0.0
  {
    if |h| - k >= rate && h[k] + 1.0 - now > 0.0 then h[k] + 1.0 - now else 0.0
  }

  ghost function Stamp(s: State, c: Call, rate: nat): real
    requires s.Valid() && rate >= 1
  {
    if Wait(s.stamps, Evict(s.stamps, s.dropped, c.entry), c.entry, rate) > 0.0 then c.woken else c.entry
  }

  ghost function Pass(s: State, c: Call, rate: nat): (s': State)
    requires s.Valid() && rate >= 1
    ensures s'.Valid()
  {
    var k := Evict(s.stamps, s.dropped, c.entry);
    State(s.stamps + [Stamp(s, c, rate)],
          if Wait(s.stamps, k, c.entry, rate) > 0.0 then Evict(s.stamps, k, c.woken) else k)
  }

  /** The lock around the gate serialises calls, so its state is one deque. The history
      it came from is ghost. */
  class Gate {
    const rate: nat
    var queue: seq<real>
    ghost var state: State

    ghost predicate Valid()
      reads this
    {
      rate >= 1 && state.Valid() && queue == state.stamps[state.dropped..]
    }

    constructor (rate: nat)
      requires rate >= 1
      ensures Valid() && this.rate == rate && state == State([], 0)
    {
      this.rate, queue, state := rate, [], State([], 0);
    }

    method WaitForRateSlot(c: Call)
      requires Valid()
      modifies this
      ensures Valid() && state == Pass(old(state), c, rate)
      ensures queue != [] && queue[|queue| - 1] == Stamp(old(state), c, rate)
    {
      var now := c.entry;
      EvictLoop(now);
      if |queue| >= rate {
        var wait := if queue[0] + 1.0 - now > 0.0 then queue[0] + 1.0 - now else 0.0;
        if wait > 0.0 {
          now := c.woken;
          EvictLoop(now);
        }
      }
      queue := queue + [now];
      state := State(state.stamps + [now], state.dropped);
    }

    method EvictLoop(now: real)
      requires Valid()
      modifies this
      ensures Valid() && state.stamps == old(state.stamps)
      ensures state.dropped == Evict(state.stamps, old(state.dropped), now)
    {
      while queue != [] && queue[0] < now - 1.0
        invariant Valid() && state.stamps == old(state.stamps)
        invariant Evict(state.stamps, state.dropped, now) == Evict(state.stamps, old(state.dropped), now)
        decreases |queue|
      {
        queue := queue[1..];
        state := state.(dropped := state.dropped + 1);
      }
    }
  }

  // ---- Runs ----

  ghost function Run(calls: seq<Call>, rate: nat): (s: State)
    requires rate >= 1
    ensures s.Valid() && |s.stamps| == |calls|
  {
    if calls == [] then State([], 0) else Pass(Run(calls[..|calls| - 1], rate), calls[|calls| - 1], rate)
  }

  /** The clock does not go back, and a sleep lasts at least as long as asked. */
  ghost predicate ClockKeepsUp(s: State, c: Call, rate: nat)
    requires s.Valid() && rate >= 1
  {
    var h := s.stamps;
    var wait := Wait(h, Evict(h, s.dropped, c.entry), c.entry, rate);
    && (h != [] ==> h[|h| - 1] <= c.entry)
    && (wait > 0.0 ==> c.woken >= c.entry + wait)
  }

  ghost predicate ClockRuns(calls: seq<Call>, rate: nat)
    requires rate >= 1
  {
    forall n: nat | n < |calls| :: ClockKeepsUp(Run(calls[..n], rate), calls[n], rate)
  }

  /** Every reading on entry is later than the last stamp. */
  ghost predicate ReadingsDiffer(calls: seq<Call>, rate: nat)
    requires rate >= 1
  {
    forall n: nat | 0 < n < |calls| :: Run(calls[..n], rate).stamps[n - 1] < calls[n].entry
  }

  ghost predicate SpacedAt(h: seq<real>, j: int, rate: nat) {
    rate <= j < |h| ==> h[j] - h[j - rate] >= 1.0
  }

  /** Every stamp is at least a second after the one `rate` places before it. */
  ghost predicate Spaced(h: seq<real>, rate: nat) {
    forall j :: SpacedAt(h, j, rate)
  }

  ghost predicate Rising(h: seq<real>) {
    forall i, j | 0 <= i < j < |h| :: h[i] <= h[j]
  }

  /** What the deque dropped is over a second older than the last stamp, and what it keeps
      besides is at most a second older. */
  ghost predicate Tracks(s: State) {
    var h, k := s.stamps, s.dropped;
    && k <= |h| && (h != [] ==> k < |h|) && Rising(h)
    && (forall i | 0 <= i < k :: h[i] < h[|h| - 1] - 1.0)
    && (k + 1 < |h| ==> h[|h| - 1] <= h[k] + 1.0)
  }

  /** The deque holds more than `rate` stamps when a call comes in, and the one `rate` places
      back is less than a second old. The gate then lets the call through at once. */
  ghost predicate Crowded(s: State, c: Call, rate: nat)
    requires s.Valid() && rate >= 1
  {
    var h, n := s.stamps, |s.stamps|;
    n - Evict(h, s.dropped, c.entry) > rate && h[n - rate] > c.entry - 1.0
  }

  lemma PassKeepsTracks(s: State, c: Call, rate: nat)
    requires s.Valid() && rate >= 1 && Tracks(s) && ClockKeepsUp(s, c, rate)
    ensures Tracks(Pass(s, c, rate))
  {
  }

  /** An overfull deque means that the reading repeats the last stamp, which came exactly one
      second after the head; so the gate does not sleep. */
  lemma OverfullRepeats(s: State, c: Call, rate: nat)
    requires s.Valid() && rate >= 1 && Tracks(s) && Spaced(s.stamps, rate) && ClockKeepsUp(s, c, rate)
    requires |s.stamps| - Evict(s.stamps, s.dropped, c.entry) > rate
    ensures c.entry == s.stamps[|s.stamps| - 1] == Stamp(s, c, rate)
  {
    var h, n := s.stamps, |s.stamps|;
    var k := Evict(h, s.dropped, c.entry);
    assert SpacedAt(h, n - 1, rate);
    assert h[k] <= h[n - 1 - rate];
  }

  /** With at most `rate` stamps in the deque the one `rate` places back has left it, or is its
      head and a second old when the gate lets the call through. */
  lemma RoomySpaced(s: State, c: Call, rate: nat)
    requires s.Valid() && rate >= 1 && Tracks(s) && ClockKeepsUp(s, c, rate)
    requires |s.stamps| - Evict(s.stamps, s.dropped, c.entry) <= rate <= |s.stamps|
    ensures Stamp(s, c, rate) - s.stamps[|s.stamps| - rate] >= 1.0
  {
  }

  /** A call keeps the spacing exactly when it does not find the gate crowded, and it can only
      find it crowded when its reading repeats the last stamp. */
  lemma PassIsSpacedIff(s: State, c: Call, rate: nat)
    requires s.Valid() && rate >= 1 && Tracks(s) && Spaced(s.stamps, rate) && ClockKeepsUp(s, c, rate)
    ensures Spaced(Pass(s, c, rate).stamps, rate) <==> !Crowded(s, c, rate)
    ensures Crowded(s, c, rate) ==> c.entry == s.stamps[|s.stamps| - 1]
  {
    var h, n, t := s.stamps, |s.stamps|, Stamp(s, c, rate);
    if n - Evict(h, s.dropped, c.entry) > rate {
      OverfullRepeats(s, c, rate);
    } else if n >= rate {
      RoomySpaced(s, c, rate);
    }
    assert SpacedAt(h + [t], n, rate) <==> !Crowded(s, c, rate);
    forall j | j != n ensures SpacedAt(h + [t], j, rate) {
      assert SpacedAt(h, j, rate);
    }
  }

  lemma {:induction false} RunTracks(calls: seq<Call>, rate: nat)
    requires rate >= 1 && ClockRuns(calls, rate)
    ensures Tracks(Run(calls, rate))
  {
    if calls != [] {
      var n := |calls| - 1;
      FrontRuns(calls, rate);
      RunTracks(calls[..n], rate);
      PassKeepsTracks(Run(calls[..n], rate), calls[n], rate);
    }
  }

  lemma FrontRuns(calls: seq<Call>, rate: nat)
    requires rate >= 1 && calls != [] && ClockRuns(calls, rate)
    ensures var n := |calls| - 1;
            ClockRuns(calls[..n], rate) && ClockKeepsUp(Run(calls[..n], rate), calls[n], rate)
  {
    var n := |calls| - 1;
    forall m: nat | m < n ensures ClockKeepsUp(Run(calls[..n][..m], rate), calls[..n][m], rate) {
      assert calls[..n][..m] == calls[..m];
    }
  }

  ghost predicate CrowdedAt(calls: seq<Call>, n: nat, rate: nat)
    requires rate >= 1
  {
    n < |calls| && Crowded(Run(calls[..n], rate), calls[n], rate)
  }

  /** No call of the run finds the gate crowded. */
  ghost predicate NeverCrowded(calls: seq<Call>, rate: nat)
    requires rate >= 1
  {
    forall n: nat :: !CrowdedAt(calls, n, rate)
  }

  /** Over every run of a clock that does not go back, stamps `rate` places apart are a second
      apart exactly when no call finds the gate crowded. */
  lemma {:induction false} RunIsSpacedIff(calls: seq<Call>, rate: nat)
    requires rate >= 1 && ClockRuns(calls, rate)
    ensures Spaced(Run(calls, rate).stamps, rate) <==> NeverCrowded(calls, rate)
  {
    if calls != [] {
      var n := |calls| - 1;
      var front := calls[..n];
      FrontRuns(calls, rate);
      RunIsSpacedIff(front, rate);
      RunTracks(front, rate);
      NeverCrowdedFront(calls, rate);
      if Spaced(Run(front, rate).stamps, rate) {
        PassIsSpacedIff(Run(front, rate), calls[n], rate);
      } else {
        var j :| !SpacedAt(Run(front, rate).stamps, j, rate);
        assert !SpacedAt(Run(calls, rate).stamps, j, rate);
      }
    }
  }

  lemma CrowdedAtFront(calls: seq<Call>, m: nat, rate: nat)
    requires rate >= 1 && m + 1 < |calls|
    ensures CrowdedAt(calls[..|calls| - 1], m, rate) <==> CrowdedAt(calls, m, rate)
  {
    assert calls[..|calls| - 1][..m] == calls[..m];
  }

  lemma NeverCrowdedFront(calls: seq<Call>, rate: nat)
    requires rate >= 1 && calls != []
    ensures NeverCrowded(calls, rate) <==>
            NeverCrowded(calls[..|calls| - 1], rate) && !CrowdedAt(calls, |calls| - 1, rate)
  {
    var front, last: nat := calls[..|calls| - 1], |calls| - 1;
    forall m: nat ensures CrowdedAt(calls, m, rate) <==>
                          CrowdedAt(front, m, rate) || (m == last && CrowdedAt(calls, last, rate)) {
      if m < last {
        CrowdedAtFront(calls, m, rate);
      }
    }
  }

  lemma ReadingsDifferFront(calls: seq<Call>, rate: nat)
    requires rate >= 1 && calls != [] && ReadingsDiffer(calls, rate)
    ensures ReadingsDiffer(calls[..|calls| - 1], rate)
  {
    var front := calls[..|calls| - 1];
    forall m: nat | 0 < m < |front| ensures Run(front[..m], rate).stamps[m - 1] < front[m].entry {
      assert front[..m] == calls[..m];
    }
  }

  /** With readings that differ no call finds the gate crowded. */
  lemma {:induction false} DifferentReadingsNeverCrowd(calls: seq<Call>, rate: nat)
    requires rate >= 1 && ClockRuns(calls, rate) && ReadingsDiffer(calls, rate)
    ensures NeverCrowded(calls, rate)
  {
    if calls != [] {
      var front := calls[..|calls| - 1];
      FrontRuns(calls, rate);
      ReadingsDifferFront(calls, rate);
      DifferentReadingsNeverCrowd(front, rate);
      RunIsSpacedIff(front, rate);
      RunTracks(front, rate);
      PassIsSpacedIff(Run(front, rate), calls[|calls| - 1], rate);
      NeverCrowdedFront(calls, rate);
    }
  }

  ghost function InWindow(h: seq<real>, from: real): set<nat> {
    set i: nat | i < |h| && from <= h[i] < from + 1.0
  }

  /** For stamps in order, spacing is the rate: no half-open one-second interval holds more. */
  lemma SpacedIsTheRate(h: seq<real>, rate: nat)
    requires rate >= 1 && Rising(h)
    ensures Spaced(h, rate) <==> forall from: real :: |InWindow(h, from)| <= rate
  {
    if Spaced(h, rate) {
      forall from: real ensures |InWindow(h, from)| <= rate {
        WindowFits(h, rate, from);
      }
    } else {
      var j :| !SpacedAt(h, j, rate);
      var w := InWindow(h, h[j - rate]);
      forall i | j - rate <= i <= j ensures i in w {
        assert h[j - rate] <= h[i] <= h[j];
      }
      Interval(w, j - rate, rate + 1);
    }
  }

  lemma WindowFits(h: seq<real>, rate: nat, from: real)
    requires rate >= 1 && Rising(h) && Spaced(h, rate)
    ensures |InWindow(h, from)| <= rate
  {
    var w := InWindow(h, from);
    if w != {} {
      var lo := Least(w);
      assert SpacedAt(h, lo + rate, rate);
      forall i: nat | lo + rate <= i < |h| ensures h[i] >= from + 1.0 {
        assert h[lo + rate] <= h[i];
      }
      WindowSize(w, lo, rate);
    }
  }

  lemma {:induction false} Interval(s: set<nat>, lo: nat, n: nat)
    requires forall i | lo <= i < lo + n :: i in s
    ensures |s| >= n
  {
    if n > 0 {
      Interval(s - {lo + n - 1}, lo, n - 1);
    }
  }

  /** The gate keeps the rate over a run of a clock that does not go back exactly when no call
      finds it crowded: more than `rate` stamps kept, and the one `rate` places back under a
      second old. */
  lemma RateIsKeptIff(calls: seq<Call>, rate: nat)
    requires rate >= 1 && ClockRuns(calls, rate)
    ensures (forall from: real :: |InWindow(Run(calls, rate).stamps, from)| <= rate) <==> NeverCrowded(calls, rate)
  {
    RunTracks(calls, rate);
    RunIsSpacedIff(calls, rate);
    SpacedIsTheRate(Run(calls, rate).stamps, rate);
  }

  /** Stamps `rate` places apart are a second apart over every run whose readings differ. */
  lemma RunSpaced(calls: seq<Call>, rate: nat)
    requires rate >= 1 && ClockRuns(calls, rate) && ReadingsDiffer(calls, rate)
    ensures Spaced(Run(calls, rate).stamps, rate)
  {
    DifferentReadingsNeverCrowd(calls, rate);
    RunIsSpacedIff(calls, rate);
  }

  /** And then no half-open one-second interval admits more than `rate` scans. */
  lemma NoWindowExceedsRate(calls: seq<Call>, rate: nat, from: real)
    requires rate >= 1 && ClockRuns(calls, rate) && ReadingsDiffer(calls, rate)
    ensures |InWindow(Run(calls, rate).stamps, from)| <= rate
  {
    DifferentReadingsNeverCrowd(calls, rate);
    RateIsKeptIff(calls, rate);
  }

  ghost function Least(s: set<nat>): (m: nat)
    requires s != {}
    ensures m in s && forall i | i in s :: m <= i
  {
    var x :| x in s;
    if s == {x} then x
    else
      var m := Least(s - {x});
      assert forall i | i in s :: i == x || i in s - {x};
      if x < m then x else m
  }

  lemma WindowSize(s: set<nat>, lo: nat, n: nat)
    requires forall i | i in s :: lo <= i < lo + n
    ensures |s| <= n
  {
    if n > 0 {
      var t := s - {lo + n - 1};
      WindowSize(t, lo, n - 1);
      assert s <= t + {lo + n - 1};
      assert |s| <= |t| + 1;
    } else {
      assert s == {};
    }
  }

  lemma Next(calls: seq<Call>, c: Call, rate: nat)
    requires rate >= 1
    ensures Run(calls + [c], rate) == Pass(Run(calls, rate), c, rate)
  {
    assert (calls + [c])[..|calls|] == calls;
  }

  lemma TwoInOneSecond()
    ensures |InWindow([0.0, 1.0, 1.0], 1.0)| == 2
  {
    var h := [0.0, 1.0, 1.0];
    forall i: nat ensures i in InWindow(h, 1.0) <==> i == 1 || i == 2 {
    }
    assert InWindow(h, 1.0) == {1, 2};
  }

  /** Readings that repeat can crowd the gate: a rate of one admits two scans at one instant. */
  lemma EqualReadingsBreakTheRate()
    ensures var calls := [Call(0.0, 0.0), Call(1.0, 1.0), Call(1.0, 1.0)];
            Run(calls, 1).stamps == [0.0, 1.0, 1.0] && |InWindow([0.0, 1.0, 1.0], 1.0)| == 2
  {
    var c0, c1 := Call(0.0, 0.0), Call(1.0, 1.0);
    assert Run([], 1) == State([], 0);
    Next([], c0, 1);
    Next([c0], c1, 1);
    Next([c0, c1], c1, 1);
    assert Pass(State([], 0), c0, 1) == State([0.0], 0);
    assert Pass(State([0.0], 0), c1, 1) == State([0.0, 1.0], 0);
    assert [] + [c0] == [c0] && [c0] + [c1] == [c0, c1] && [c0, c1] + [c1] == [c0, c1, c1];
    TwoInOneSecond();
  }

  // ---- One call, reading by reading ----

  /** The gate sleeps only when the deque holds as many stamps as the rate, and then exactly until
      its head is a second old. */
  lemma WaitsUntilTheHeadIsOld(h: seq<real>, k: nat, now: real, rate: nat)
    requires k <= |h| && rate >= 1
    ensures |h| - k < rate ==> Wait(h, k, now, rate) == 0.0
    ensures |h| - k >= rate && h[k] <= now - 1.0 ==> Wait(h, k, now, rate) == 0.0
    ensures |h| - k >= rate && h[k] > now - 1.0 ==> now + Wait(h, k, now, rate) - h[k] == 1.0
  {
  }

  /** A call on a deque that starts at stamp k after eviction: it is stamped at once if there is
      room or the head is a second old, and with the reading after its sleep otherwise. The stamp
      goes to the end, and what is over a second old by then is gone from the front. */
  lemma PassesInReadings(s: State, c: Call, rate: nat, k: nat)
    requires s.Valid() && rate >= 1 && s.dropped <= k <= |s.stamps|
    requires forall i | s.dropped <= i < k :: c.entry - s.stamps[i] > 1.0
    requires k < |s.stamps| ==> c.entry - s.stamps[k] <= 1.0
    ensures var sleeps := |s.stamps| - k >= rate && c.entry - s.stamps[k] < 1.0;
            var s' := Pass(s, c, rate);
            && s'.stamps == s.stamps + [if sleeps then c.woken else c.entry]
            && (!sleeps ==> s'.dropped == k)
            && (sleeps ==>
                  && k <= s'.dropped <= |s.stamps|
                  && (forall i | k <= i < s'.dropped :: c.woken - s.stamps[i] > 1.0)
                  && (s'.dropped < |s.stamps| ==> c.woken - s.stamps[s'.dropped] <= 1.0))
  {
    EvictsUpTo(s.stamps, s.dropped, k, c.entry);
  }

  lemma {:induction false} EvictsUpTo(h: seq<real>, from: nat, k: nat, now: real)
    requires from <= k <= |h| && (forall i | from <= i < k :: now - h[i] > 1.0)
    requires k < |h| ==> now - h[k] <= 1.0
    ensures Evict(h, from, now) == k
    decreases k - from
  {
    if from < k {
      EvictsUpTo(h, from + 1, k, now);
    }
  }
}
