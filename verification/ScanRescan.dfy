/** The background rescan of stored attachments (infra/scan_rescan.py, _run_job). A write that
    fails changes nothing. */
module ScanRescan {
  import opened Common

  /** An exception, or the worker itself being cancelled. */
  datatype Failure = Blows(error: string) | Dies

  /** How a target counts. */
  datatype Scan = Missing | Clean | Infected | Unavailable

  /** What goes wrong once the target has been counted: the worker dies in the quarantine mark
      (an exception there is only logged), or the progress write fails. */
  datatype Trouble = MarkDies | WriteFails(f: Failure)

  /** What happens at one target. `marked` is whether an infected file's article was marked. */
  datatype Event =
    | CancelSeen
    | Lost(f: Failure)
    | Counted(scan: Scan, marked: bool, trouble: Option<Trouble>)

  /** Whether the progress row is written at target i: every tenth, the last, and an outage. */
  predicate WritesAt(i: nat, total: nat, scan: Scan) {
    (i + 1) % 10 == 0 || i + 1 == total || scan.Unavailable?
  }

  /** A counted target can go wrong only where the loop waits for something. */
  predicate CanHappen(e: Event, i: nat, total: nat) {
    e.Counted? ==>
      && (e.marked ==> e.scan.Infected?)
      && (e.trouble.Some? && e.trouble.value.MarkDies? ==> e.scan.Infected?)
      && (e.trouble.Some? && e.trouble.value.WriteFails? ==> WritesAt(i, total, e.scan))
  }

  /** How the job's last writes fare: the one that ends the loop, and the handler's. */
  datatype Closing = Closing(first: Option<Failure>, handlerLands: bool)

  datatype Status = Running | Completed | Cancelled | Failed

  /** The job row the operator sees. */
  datatype Job = Job(status: Status, total: nat, scanned: nat, clean: nat, infected: nat, errors: nat,
    lastError: Option<string>)

  const FRESH := Job(Running, 0, 0, 0, 0, 0, None)
  const OUTAGE := "ClamAV unavailable mid-rescan"
  const KILLED := "worker task cancelled"

  /** The counters of the loop. */
  datatype Tally = Tally(clean: nat, infected: nat, errors: nat)

  function Sum(t: Tally): nat {
    t.clean + t.infected + t.errors
  }

  /** Whether the loop goes on to the next target. */
  predicate GoesOn(e: Event) {
    e.Counted? && e.trouble.None? && !e.scan.Unavailable?
  }

  function Count(t: Tally, e: Event): Tally {
    if !e.Counted? then t
    else
      match e.scan
      case Clean => t.(clean := t.clean + 1)
      case Infected => t.(infected := t.infected + 1)
      case _ => t.(errors := t.errors + 1)
  }

  /** The counters after the first n targets. */
  function TallyOf(events: seq<Event>, n: nat): Tally
    requires n <= |events|
  {
    if n == 0 then Tally(0, 0, 0) else Count(TallyOf(events, n - 1), events[n - 1])
  }

  /** The target at which the loop stops; the number of targets if it runs through. */
  function StopsAt(events: seq<Event>, n: nat): (r: nat)
    requires n <= |events|
    ensures n <= r <= |events|
    decreases |events| - n
  {
    if n == |events| || !GoesOn(events[n]) then n else StopsAt(events, n + 1)
  }

  function Shown(job: Job, n: nat, t: Tally): Job {
    job.(scanned := n, clean := t.clean, infected := t.infected, errors := t.errors)
  }

  /** The last target, of n passed, after which the row was brought up to date. */
  function LastShown(n: nat, total: nat): nat {
    if n == total then n else n - n % 10
  }

  /** What the two exception handlers leave. */
  function Handled(job: Job, f: Failure, lands: bool): Job {
    if !lands then job
    else
      match f
      case Blows(error) => job.(status := Failed, lastError := Some(if |error| <= 500 then error else error[..500]))
      case Dies => job.(status := Cancelled, lastError := Some(KILLED))
  }

  /** What the write that ends the loop leaves, or the handler after it. */
  function Closed(job: Job, status: Status, lastError: Option<string>, c: Closing): Job {
    if c.first.None? then job.(status := status, lastError := lastError)
    else Handled(job, c.first.value, c.handlerLands)
  }

  /** The row of a job that stops at target n and was last brought up to date at an earlier
      one. */
  function JobStopped(events: seq<Event>, n: nat, shown: nat, c: Closing): Job
    requires shown <= n <= |events|
  {
    var total := |events|;
    var job := Shown(FRESH.(total := total), shown, TallyOf(events, shown));
    if n == total then Closed(job, Completed, None, c)
    else
      match events[n]
      case CancelSeen => Closed(job, Cancelled, None, c)
      case Lost(f) => Handled(job, f, c.handlerLands)
      case Counted(_, _, None) => Closed(Shown(job, n + 1, TallyOf(events, n + 1)), Failed, Some(OUTAGE), c)
      case Counted(_, _, Some(MarkDies)) => Handled(job, Dies, c.handlerLands)
      case Counted(_, _, Some(WriteFails(f))) => Handled(job, f, c.handlerLands)
  }

  function FinalJob(events: seq<Event>, c: Closing): Job {
    var n := StopsAt(events, 0);
    JobStopped(events, n, LastShown(n, |events|), c)
  }

  /** How many targets the counters have seen. */
  function CountedTargets(events: seq<Event>): (m: nat)
    ensures m <= |events|
  {
    var n := StopsAt(events, 0);
    if n < |events| && events[n].Counted? then n + 1 else n
  }

  /** The targets found infected and marked, among the first n. */
  function Marked(targets: seq<int>, events: seq<Event>, n: nat): set<int>
    requires n <= |events| == |targets|
  {
    set i | 0 <= i < n && events[i].Counted? && events[i].marked :: targets[i]
  }

  lemma MarkedNext(targets: seq<int>, events: seq<Event>, i: nat)
    requires i < |events| == |targets|
    ensures Marked(targets, events, i + 1) ==
            Marked(targets, events, i) + if events[i].Counted? && events[i].marked then {targets[i]} else {}
  {
  }

  class Rescan {
    var job: Job
    var quarantined: set<int>

    constructor ()
      ensures job == Job(Running, 0, 0, 0, 0, 0, None) && quarantined == {}
    {
      job, quarantined := FRESH, {};
    }

    /** The exception handlers around the loop. */
    method Handle(f: Failure, lands: bool)
      modifies this`job
      ensures job == Handled(old(job), f, lands)
    {
      if !lands {
        return;
      }
      match f {
        case Blows(error) =>
          job := job.(status := Failed, lastError := Some(if |error| <= 500 then error else error[..500]));
        case Dies =>
          job := job.(status := Cancelled, lastError := Some(KILLED));
      }
    }

    method Close(status: Status, lastError: Option<string>, c: Closing)
      modifies this`job
      ensures job == Closed(old(job), status, lastError, c)
    {
      if c.first.Some? {
        Handle(c.first.value, c.handlerLands);
        return;
      }
      job := job.(status := status, lastError := lastError);
    }

    /** A job that cannot list its targets never gets to the loop. */
    method RunJobWithoutTargets(f: Failure, lands: bool)
      requires job == FRESH
      modifies this`job
      ensures job == Handled(FRESH, f, lands)
    {
      Handle(f, lands);
    }

    /** The whole job: `events[i]` is what happens at target i. */
    method RunJob(targets: seq<int>, events: seq<Event>, c: Closing)
      requires |events| == |targets| && forall i | 0 <= i < |events| :: CanHappen(events[i], i, |events|)
      requires job == FRESH && quarantined == {}
      modifies this
      ensures job == FinalJob(events, c)
      ensures quarantined == Marked(targets, events, CountedTargets(events))
    {
      var clean, infected, errors: nat := 0, 0, 0;
      var total := |targets|;
      job := job.(total := total);
      var i := 0;
      while i < total
        invariant i <= total && StopsAt(events, 0) == StopsAt(events, i)
        invariant Tally(clean, infected, errors) == TallyOf(events, i)
        invariant job == Shown(FRESH.(total := total), LastShown(i, total), TallyOf(events, LastShown(i, total)))
        invariant quarantined == Marked(targets, events, i)
      {
        var e := events[i];
        MarkedNext(targets, events, i);
        assert !GoesOn(e) ==> StopsAt(events, i) == i;
        if e.CancelSeen? {
          Close(Cancelled, None, c);
          return;
        }
        if e.Lost? {
          Handle(e.f, c.handlerLands);
          return;
        }
        match e.scan {
          case Clean => clean := clean + 1;
          case Infected =>
            infected := infected + 1;
            if e.marked {
              quarantined := quarantined + {targets[i]};
            }
            if e.trouble.Some? && e.trouble.value.MarkDies? {
              Handle(Dies, c.handlerLands);
              return;
            }
          case _ => errors := errors + 1;
        }
        i := i + 1;
        if i % 10 == 0 || i == total || e.scan.Unavailable? {
          if e.trouble.Some? {
            Handle(e.trouble.value.f, c.handlerLands);
            return;
          }
          job := job.(scanned := i, clean := clean, infected := infected, errors := errors);
        }
        if e.scan.Unavailable? {
          Close(Failed, Some(OUTAGE), c);
          return;
        }
      }
      Close(Completed, None, c);
    }
  }

  // ---- What the operator can rely on ----

  lemma {:induction false} StopsAtFirst(events: seq<Event>, n: nat)
    requires n <= |events|
    ensures StopsAt(events, n) < |events| ==> !GoesOn(events[StopsAt(events, n)])
    ensures forall i | n <= i < StopsAt(events, n) :: GoesOn(events[i])
    decreases |events| - n
  {
    if n < |events| && GoesOn(events[n]) {
      StopsAtFirst(events, n + 1);
    }
  }

  lemma {:induction false} EachTargetIsCountedOnce(events: seq<Event>, n: nat)
    requires n <= |events| && forall i | 0 <= i < n :: events[i].Counted?
    ensures Sum(TallyOf(events, n)) == n
  {
    if n > 0 {
      EachTargetIsCountedOnce(events, n - 1);
    }
  }

  /** The loop stopped at a counted target without bringing the row up to date. */
  predicate StoppedInTrouble(events: seq<Event>) {
    var n := StopsAt(events, 0);
    n < |events| && events[n].Counted? && events[n].trouble.Some?
  }

  lemma PrefixIsCounted(events: seq<Event>, n: nat, m: nat)
    requires m <= n <= |events| && forall i | 0 <= i < n :: GoesOn(events[i])
    ensures Sum(TallyOf(events, m)) == m
    ensures n < |events| && events[n].Counted? ==> Sum(TallyOf(events, n + 1)) == n + 1
  {
    EachTargetIsCountedOnce(events, m);
    if n < |events| && events[n].Counted? {
      EachTargetIsCountedOnce(events, n + 1);
    }
  }

  /** The counters have seen every target up to the one the job stopped at, once. */
  lemma CountersAreExact(events: seq<Event>, m: nat)
    requires m == CountedTargets(events)
    ensures Sum(TallyOf(events, m)) == m
  {
    var n := StopsAt(events, 0);
    StopsAtFirst(events, 0);
    assert forall i | 0 <= i < m :: events[i].Counted?;
    EachTargetIsCountedOnce(events, m);
  }

  lemma ScannedIs(events: seq<Event>, n: nat, shown: nat, c: Closing)
    requires shown <= n <= |events| && Sum(TallyOf(events, shown)) == shown
    requires n < |events| && events[n].Counted? ==> Sum(TallyOf(events, n + 1)) == n + 1
    ensures var job := JobStopped(events, n, shown, c);
            && job.total == |events| && job.clean + job.infected + job.errors == job.scanned
            && job.scanned == if n < |events| && events[n].Counted? && events[n].trouble.None? then n + 1 else shown
  {
  }

  /** At every exit the row's counts add up to what it says was scanned. That is at most ten
      short of what was counted, and ten short exactly when the job stopped in trouble at a
      tenth target. */
  lemma JobCountsAddUp(events: seq<Event>, c: Closing)
    ensures var job := FinalJob(events, c);
            var m := CountedTargets(events);
            && job.total == |events|
            && job.clean + job.infected + job.errors == job.scanned
            && m - 10 <= job.scanned <= m
            && (job.scanned == m - 10 <==> StoppedInTrouble(events) && m % 10 == 0)
  {
    var n := StopsAt(events, 0);
    StopsAtFirst(events, 0);
    TenShort(n, |events|);
    PrefixIsCounted(events, n, LastShown(n, |events|));
    ScannedIs(events, n, LastShown(n, |events|), c);
  }

  lemma TenShort(n: nat, total: nat)
    requires n <= total
    ensures n - 10 < LastShown(n, total) <= n
    ensures n < total ==> (LastShown(n, total) == n + 1 - 10 <==> (n + 1) % 10 == 0)
  {
  }

  /** Whether the last write the job tried went through. */
  predicate LastWriteLands(events: seq<Event>, c: Closing) {
    var n := StopsAt(events, 0);
    c.handlerLands || (c.first.None? &&
        (n == |events| || events[n].CancelSeen? || !(events[n].Lost? || StoppedInTrouble(events))))
  }

  /** A job is over exactly when its last write lands; completed exactly when every target was
      scanned and the write that says so lands. */
  lemma JobEndsAs(events: seq<Event>, c: Closing)
    ensures var job := FinalJob(events, c);
            && (job.status != Running <==> LastWriteLands(events, c))
            && (job.status.Completed? <==> c.first.None? && forall i | 0 <= i < |events| :: GoesOn(events[i]))
            && (job.status.Completed? ==> job.scanned == |events|)
  {
    StopsAtFirst(events, 0);
  }

  lemma {:induction false} InfectedGrows(events: seq<Event>, m: nat, n: nat)
    requires m <= n <= |events|
    ensures TallyOf(events, m).infected <= TallyOf(events, n).infected
    ensures TallyOf(events, m).infected == TallyOf(events, n).infected <==>
            forall i | m <= i < n :: !(events[i].Counted? && events[i].scan.Infected?)
  {
    if m < n {
      InfectedGrows(events, m, n - 1);
    }
  }

  /** The row shows every infected file the job counted exactly when none was counted since the
      last progress write, an outage's included. */
  lemma FindingsAreShownIff(events: seq<Event>, c: Closing)
    ensures var n, m := StopsAt(events, 0), CountedTargets(events);
            var shown := if m > n && events[n].trouble.None? then m else LastShown(n, |events|);
            FinalJob(events, c).infected == TallyOf(events, m).infected <==>
            forall i | shown <= i < m :: !(events[i].Counted? && events[i].scan.Infected?)
  {
    var n, m := StopsAt(events, 0), CountedTargets(events);
    StopsAtFirst(events, 0);
    TenShort(n, |events|);
    var shown := if m > n && events[n].trouble.None? then m else LastShown(n, |events|);
    InfectedGrows(events, shown, m);
    InfectedShown(events, n, LastShown(n, |events|), c);
  }

  lemma InfectedShown(events: seq<Event>, n: nat, shown: nat, c: Closing)
    requires shown <= n <= |events|
    ensures JobStopped(events, n, shown, c).infected ==
            if n < |events| && events[n].Counted? && events[n].trouble.None? then TallyOf(events, n + 1).infected
            else TallyOf(events, shown).infected
  {
  }

  /** A file quarantined just before a cancel is in no count of the job. */
  lemma CancelHidesAFinding()
    ensures var events := [Counted(Infected, true, None), CancelSeen];
            var job := FinalJob(events, Closing(None, true));
            && job.status == Cancelled && job.infected == 0
            && Marked([5, 6], events, CountedTargets(events)) == {5}
  {
    var events := [Counted(Infected, true, None), CancelSeen];
    assert StopsAt(events, 1) == 1;
    assert TallyOf(events, 0) == Tally(0, 0, 0);
    assert [5, 6][0] in Marked([5, 6], events, 1);
  }

  // ---- The row, field by field ----

  /** The events among the first n that count a target so. */
  function Of(events: seq<Event>, n: nat, scan: Scan): set<int>
    requires n <= |events|
  {
    set i | 0 <= i < n && events[i].Counted? && events[i].scan == scan
  }

  lemma OfNext(events: seq<Event>, n: nat, scan: Scan)
    requires n < |events|
    ensures |Of(events, n + 1, scan)| ==
            |Of(events, n, scan)| + if events[n].Counted? && events[n].scan == scan then 1 else 0
  {
    assert Of(events, n + 1, scan) ==
           Of(events, n, scan) + if events[n].Counted? && events[n].scan == scan then {n} else {};
  }

  /** Clean files and infected ones are counted as such; a missing file, and a scan that could not
      be made, as an error. */
  lemma {:induction false} CountersInEvents(events: seq<Event>, n: nat)
    requires n <= |events|
    ensures TallyOf(events, n).clean == |Of(events, n, Clean)|
    ensures TallyOf(events, n).infected == |Of(events, n, Infected)|
    ensures TallyOf(events, n).errors == |Of(events, n, Missing)| + |Of(events, n, Unavailable)|
  {
    if n == 0 {
      assert forall scan :: Of(events, 0, scan) == {};
    } else {
      CountersInEvents(events, n - 1);
      forall scan
        ensures |Of(events, n, scan)| ==
                |Of(events, n - 1, scan)| + if events[n - 1].Counted? && events[n - 1].scan == scan then 1 else 0
      {
        OfNext(events, n - 1, scan);
      }
    }
  }

  /** The loop runs through the targets before n and not past n. */
  ghost predicate StopsBefore(events: seq<Event>, n: nat) {
    && n <= |events|
    && (forall i | 0 <= i < n :: events[i].Counted? && events[i].trouble == None && events[i].scan != Unavailable)
    && (n < |events| ==> !events[n].Counted? || events[n].trouble != None || events[n].scan == Unavailable)
  }

  lemma {:induction false} StopsThere(events: seq<Event>, from: nat, n: nat)
    requires StopsBefore(events, n) && from <= n
    ensures StopsAt(events, from) == n
    decreases n - from
  {
    if from < n {
      StopsThere(events, from + 1, n);
    }
  }

  /** The first 500 characters of an error are kept. */
  predicate Reports(job: Job, f: Failure) {
    match f
    case Blows(error) =>
      && job.status == Failed && job.lastError.Some?
      && (|error| <= 500 ==> job.lastError.value == error)
      && (|error| > 500 ==> |job.lastError.value| == 500 && job.lastError.value <= error)
    case Dies => job.status == Cancelled && job.lastError == Some("worker task cancelled")
  }

  /** What each exit leaves. When the last write of the loop lands: 'completed' with every target
      shown; 'cancelled' without an error; or 'failed' over the scanner, with the target that
      found it out shown. When the loop is left by a failure the handler reports it, if its own
      write lands; and if that fails too the row stays 'running'. */
  lemma ExitsInFields(events: seq<Event>, n: nat, c: Closing)
    requires StopsBefore(events, n)
    ensures var job := FinalJob(events, c);
            && job.total == |events|
            && (n == |events| ==>
                  && job.scanned == n
                  && (c.first == None ==> job.status == Completed && job.lastError == None))
            && (n < |events| && events[n].CancelSeen? && c.first == None ==>
                  job.status == Cancelled && job.lastError == None)
            && (n < |events| && events[n].Counted? && events[n].trouble == None ==>
                  && job.scanned == n + 1
                  && (c.first == None ==>
                        job.status == Failed && job.lastError == Some("ClamAV unavailable mid-rescan")))
    ensures var job, f := FinalJob(events, c), FailureAt(events, n, c);
            f.Some? ==>
              && (c.handlerLands ==> Reports(job, f.value))
              && (!c.handlerLands ==> job.status == Running && job.lastError == None)
  {
    StopsThere(events, 0, n);
  }

  /** The failure that reaches the handlers: of the target, of its mark or progress write, or of
      the write that ends the loop. */
  function FailureAt(events: seq<Event>, n: nat, c: Closing): Option<Failure>
    requires n <= |events|
  {
    if n < |events| && events[n].Lost? then Some(events[n].f)
    else if n < |events| && events[n].Counted? && events[n].trouble.Some? then
      Some(if events[n].trouble.value.MarkDies? then Dies else events[n].trouble.value.f)
    else c.first
  }

  /** The row shows the counters as they were after the last full ten, the last target, or the
      outage. */
  lemma ShownAreTheCounters(events: seq<Event>, n: nat, c: Closing)
    requires StopsBefore(events, n)
    ensures var job := FinalJob(events, c);
            && job.scanned <= |events|
            && job.clean == |Of(events, job.scanned, Clean)|
            && job.infected == |Of(events, job.scanned, Infected)|
            && job.errors == |Of(events, job.scanned, Missing)| + |Of(events, job.scanned, Unavailable)|
            && (n < |events| && !(events[n].Counted? && events[n].trouble == None) ==>
                  job.scanned % 10 == 0 && n - 10 < job.scanned <= n)
  {
    StopsThere(events, 0, n);
    CountersInEvents(events, FinalJob(events, c).scanned);
  }

  /** Quarantined are exactly the targets that were counted infected and whose mark landed, up to
      the one the job stopped at. */
  lemma QuarantinedIff(targets: seq<int>, events: seq<Event>, n: nat, x: int)
    requires StopsBefore(events, n) && |targets| == |events|
    ensures x in Marked(targets, events, CountedTargets(events)) <==>
            exists i | 0 <= i < |events| && i <= n :: targets[i] == x && events[i].Counted? && events[i].marked
  {
    StopsThere(events, 0, n);
    if i :| 0 <= i < |events| && i <= n && targets[i] == x && events[i].Counted? && events[i].marked {
      assert i < CountedTargets(events);
    }
  }

  /** A cancel may be seen and a target lost anywhere; a mark, and a death in it, needs an infected
      file; and a progress write can fail only where there is one. */
  lemma CanHappenIff(i: nat, total: nat, f: Failure, scan: Scan, marked: bool)
    ensures CanHappen(CancelSeen, i, total) && CanHappen(Lost(f), i, total)
    ensures CanHappen(Counted(scan, marked, None), i, total) <==> (marked ==> scan == Infected)
    ensures CanHappen(Counted(scan, marked, Some(MarkDies)), i, total) <==> scan == Infected
    ensures CanHappen(Counted(scan, marked, Some(WriteFails(f))), i, total) <==>
            (marked ==> scan == Infected) && (i % 10 == 9 || i == total - 1 || scan == Unavailable)
  {
  }

  /** A progress write comes after every tenth target, after the last, and on an outage. */
  lemma WritesAtIff(i: nat, total: nat, scan: Scan)
    ensures WritesAt(i, total, scan) <==> (exists k: nat :: i == 10 * k + 9) || i == total - 1 || scan == Unavailable
  {
    if (i + 1) % 10 == 0 {
      assert i == 10 * (i / 10) + 9;
    }
  }
}
