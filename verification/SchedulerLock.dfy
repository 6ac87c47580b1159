/** The scheduler's leader lock (run.py; infra/cache.py acquire_lock, heartbeat_lock,
    release_lock), with Redis up. The key holds no owner token: any instance that deletes
    or refreshes it deletes or refreshes whatever is there. Time is in whole seconds. */
module SchedulerLock {
  import opened Common

  const TTL := 90

  // ---- The key ----

  /** SET NX EX: taken only when absent or expired. */
  function SetNx(key: Option<int>, now: int, ttl: nat): (Option<int>, bool) {
    if Live(key, now) then (key, false) else (Some(now + ttl), true)
  }

  /** EXPIRE: refreshed only while alive, whoever set it. */
  function Refresh(key: Option<int>, now: int, ttl: nat): (Option<int>, bool) {
    if Live(key, now) then (Some(now + ttl), true) else (key, false)
  }

  predicate Live(key: Option<int>, now: int) {
    key.Some? && now < key.value
  }

  /** `lock:scheduler:global` in Redis: absent, or there until a deadline. */
  class LockKey {
    var deadline: Option<int>

    method AcquireLock(now: int, ttl: nat) returns (got: bool)
      modifies this
      ensures (deadline, got) == SetNx(old(deadline), now, ttl)
      ensures Live(deadline, now) || ttl == 0
      ensures got <==> old(deadline) == None || old(deadline).value <= now
      ensures deadline == if got then Some(now + ttl) else old(deadline)
    {
      if deadline.Some? && now >= deadline.value {
        deadline := None;
      }
      got := deadline.None?;
      if got {
        deadline := Some(now + ttl);
      }
    }

    method HeartbeatLock(now: int, ttl: nat) returns (held: bool)
      modifies this
      ensures (deadline, held) == Refresh(old(deadline), now, ttl)
      ensures held <==> old(deadline).Some? && now < old(deadline).value
      ensures deadline == if held then Some(now + ttl) else old(deadline)
    {
      held := deadline.Some? && now < deadline.value;
      if held {
        deadline := Some(now + ttl);
      }
    }

    method ReleaseLock()
      modifies this
      ensures deadline == None
    {
      deadline := None;
    }
  }

  // ---- Instances ----

  datatype Phase =
    | Off
    | Waiting(lastTry: int)
    | Running(refreshed: int)    // owns the scheduler, heartbeat on
    | Draining(refreshed: int)   // heartbeat cancelled, jobs finishing
    | Gone                       // released, or crashed

  /** `freeAt` and `lastRefresh` are history: when the key falls free, or fell free, and
      when anybody last took or refreshed it. */
  datatype State = State(now: int, key: Option<int>, phases: map<int, Phase>, freeAt: int, lastRefresh: int)

  predicate Owns(p: Phase) {
    p.Running? || p.Draining?
  }

  datatype Event =
    | Pass(seconds: nat)
    | Try(i: int)        // first try at boot, or a retry
    | Beat(i: int)
    | Stop(i: int)       // the shutdown signal: cancel the heartbeat, start draining
    | Release(i: int)
    | Crash(i: int)

  predicate Possible(s: State, e: Event) {
    match e
    case Pass(_) => true
    case Try(i) => i in s.phases && (s.phases[i].Off? || s.phases[i].Waiting?)
    case Beat(i) => i in s.phases && s.phases[i].Running?
    case Stop(i) => i in s.phases && s.phases[i].Running?
    case Release(i) => i in s.phases && s.phases[i].Draining?
    case Crash(i) => i in s.phases
  }

  function Taken(s: State, i: int): State {
    s.(key := Some(s.now + TTL), phases := s.phases[i := Running(s.now)], freeAt := s.now + TTL, lastRefresh := s.now)
  }

  function Apply(s: State, e: Event): State
    requires Possible(s, e)
  {
    match e
    case Pass(n) => s.(now := s.now + n)
    case Try(i) =>
      if SetNx(s.key, s.now, TTL).1 then Taken(s, i) else s.(phases := s.phases[i := Waiting(s.now)])
    case Beat(i) =>
      // On a failed heartbeat the loop re-acquires and ignores the answer.
      if Refresh(s.key, s.now, TTL).1 || SetNx(s.key, s.now, TTL).1 then Taken(s, i)
      else s.(phases := s.phases[i := Running(s.now)])
    case Stop(i) => s.(phases := s.phases[i := Draining(s.phases[i].refreshed)])
    case Release(i) => s.(key := None, phases := s.phases[i := Gone], freeAt := s.now)
    case Crash(i) => s.(phases := s.phases[i := Gone])
  }

  // ---- The timing assumption ----

  /** Heartbeats come under 90 seconds apart, a drain ends under 90 seconds after the last
      heartbeat, and a waiter retries at least every 15 seconds. */
  ghost predicate Timely(s: State) {
    forall i | i in s.phases ::
      && (Owns(s.phases[i]) ==> s.now < s.phases[i].refreshed + 90)
      && (s.phases[i].Waiting? ==> s.now <= s.phases[i].lastTry + 15)
  }

  ghost predicate Inv(s: State) {
    && (s.key.Some? ==> s.freeAt == s.key.value)
    && (s.key.None? ==> s.freeAt <= s.now)
    && s.freeAt <= s.lastRefresh + TTL && s.lastRefresh <= s.now
    && (forall i | i in s.phases && Owns(s.phases[i]) :: s.key == Some(s.phases[i].refreshed + TTL))
    && (forall i, j | i in s.phases && j in s.phases && Owns(s.phases[i]) && Owns(s.phases[j]) :: i == j)
    && (forall i | i in s.phases && s.phases[i].Waiting? ::
        s.phases[i].lastTry <= s.freeAt && s.phases[i].lastTry <= s.now)
  }

  ghost predicate Run(trace: seq<State>, events: seq<Event>) {
    && |trace| == |events| + 1
    && trace[0].key.None? && trace[0].freeAt == trace[0].lastRefresh == trace[0].now
    && (forall i | i in trace[0].phases :: trace[0].phases[i].Off?)
    && (forall k | 0 <= k < |events| :: Possible(trace[k], events[k]) && trace[k + 1] == Apply(trace[k], events[k]))
  }

  ghost predicate AlwaysTimely(trace: seq<State>) {
    forall k | 0 <= k < |trace| :: Timely(trace[k])
  }

  lemma StepKeepsInv(s: State, e: Event)
    requires Inv(s) && Timely(s) && Possible(s, e)
    ensures Inv(Apply(s, e))
  {
  }

  lemma {:induction false} RunInv(trace: seq<State>, events: seq<Event>)
    requires Run(trace, events) && AlwaysTimely(trace)
    ensures Inv(trace[|events|])
  {
    if events != [] {
      var n := |events| - 1;
      assert forall k | 0 <= k < n + 1 :: trace[..n + 1][k] == trace[k];
      RunInv(trace[..n + 1], events[..n]);
      StepKeepsInv(trace[n], events[n]);
    }
  }

  /** At every moment of a timely run at most one instance owns the scheduler. */
  lemma AtMostOneOwner(trace: seq<State>, events: seq<Event>, i: int, j: int)
    requires Run(trace, events) && AlwaysTimely(trace)
    ensures var p := trace[|events|].phases;
            i in p && j in p && Owns(p[i]) && Owns(p[j]) ==> i == j
  {
    RunInv(trace, events);
  }

  /** A release deletes the releasing instance's own lock: the key still stands at its own
      last refresh, and nobody else owns the scheduler. */
  lemma ReleaseDeletesOwnLock(trace: seq<State>, events: seq<Event>, i: int)
    requires Run(trace, events) && AlwaysTimely(trace) && Possible(trace[|events|], Release(i))
    ensures var s := trace[|events|];
            && Live(s.key, s.now) && s.key == Some(s.phases[i].refreshed + 90)
            && (forall j | j in s.phases && j != i :: !Owns(s.phases[j]))
  {
    RunInv(trace, events);
    assert Timely(trace[|events|]);
  }

  /** A heartbeat always finds its own lock alive, so the re-acquire branch is never
      needed in a timely run. */
  lemma HeartbeatFindsOwnLock(trace: seq<State>, events: seq<Event>, i: int)
    requires Run(trace, events) && AlwaysTimely(trace) && Possible(trace[|events|], Beat(i))
    ensures var s := trace[|events|];
            s.key.Some? && s.now < s.key.value && Apply(s, Beat(i)).key == Some(s.now + 90)
  {
    RunInv(trace, events);
    assert Timely(trace[|events|]);
  }

  /** While an instance is waiting, the scheduler is without an owner only until 15 seconds
      after the key falls free, and so no later than 90 + 15 seconds after the last time a
      holder that crashed took or refreshed it. */
  lemma TakeoverIsBounded(trace: seq<State>, events: seq<Event>, waiter: int)
    requires Run(trace, events) && AlwaysTimely(trace)
    requires waiter in trace[|events|].phases && trace[|events|].phases[waiter].Waiting?
    requires forall i | i in trace[|events|].phases :: !Owns(trace[|events|].phases[i])
    ensures trace[|events|].now <= trace[|events|].freeAt + 15
    ensures trace[|events|].now <= trace[|events|].lastRefresh + 90 + 15
  {
    RunInv(trace, events);
    assert Timely(trace[|events|]);
  }

  /** And the waiter's next try, once the key is free, succeeds. */
  lemma FreeKeyIsTaken(s: State, waiter: int)
    requires Possible(s, Try(waiter)) && s.now >= s.freeAt && Inv(s)
    ensures var s' := Apply(s, Try(waiter));
            s'.phases[waiter] == Running(s.now) && s'.lastRefresh == s.now
  {
  }

  // ---- The bounds are needed ----

  /** Whenever an owner has gone 90 seconds without a refresh, any other instance's try
      makes a second owner, and the first one's shutdown then deletes the second's lock. */
  lemma LateOwnerBreaksSafety(s: State, late: int, other: int)
    requires Inv(s) && late in s.phases && s.phases[late].Running?
    requires s.now >= s.phases[late].refreshed + 90
    requires late != other && Possible(s, Try(other))
    ensures var two := Apply(s, Try(other));
            && Owns(two.phases[late]) && Owns(two.phases[other])
            && Possible(two, Stop(late)) && Possible(Apply(two, Stop(late)), Release(late))
            && var after := Apply(Apply(two, Stop(late)), Release(late));
               after.key.None? && Owns(after.phases[other])
  {
  }

  /** While the owner keeps its refreshes under 90 seconds apart no try succeeds: a second
      owner appears on a try exactly when the bound is broken. */
  lemma SecondOwnerIffLate(s: State, owner: int, other: int)
    requires Inv(s) && owner in s.phases && Owns(s.phases[owner])
    requires owner != other && Possible(s, Try(other))
    ensures Owns(Apply(s, Try(other)).phases[other]) <==> s.now >= s.phases[owner].refreshed + 90
  {
  }

  // ---- Each event, field by field ----

  /** A try takes the key for 90 seconds when there is none or its time is up, and makes the
      instance the owner; otherwise the instance waits. Nothing else changes. */
  lemma TriesInFields(s: State, i: int)
    requires i in s.phases && (s.phases[i].Off? || s.phases[i].Waiting?)
    ensures Possible(s, Try(i))
    ensures var s', free := Apply(s, Try(i)), s.key == None || s.key.value <= s.now;
            && s'.now == s.now && s'.phases.Keys == s.phases.Keys
            && (forall j | j in s.phases && j != i :: s'.phases[j] == s.phases[j])
            && s'.phases[i] == (if free then Running(s.now) else Waiting(s.now))
            && s'.key == (if free then Some(s.now + 90) else s.key)
            && s'.freeAt == (if free then s.now + 90 else s.freeAt)
            && s'.lastRefresh == (if free then s.now else s.lastRefresh)
  {
  }

  /** A heartbeat leaves the key with 90 seconds, whoever set it and even if it was gone. */
  lemma BeatsInFields(s: State, i: int)
    requires i in s.phases && s.phases[i].Running?
    ensures Possible(s, Beat(i))
    ensures var s' := Apply(s, Beat(i));
            && s'.key == Some(s.now + 90) && s'.phases == s.phases[i := Running(s.now)] && s'.now == s.now
            && s'.freeAt == s.now + 90 && s'.lastRefresh == s.now
  {
  }

  /** Stopping ends the heartbeat, releasing deletes whatever key is there, a crash leaves it. */
  lemma EndsInFields(s: State, i: int, n: nat)
    requires i in s.phases
    ensures Apply(s, Pass(n)) == s.(now := s.now + n)
    ensures Apply(s, Crash(i)) == s.(phases := s.phases[i := Gone])
    ensures s.phases[i].Running? ==>
              && Possible(s, Stop(i))
              && Apply(s, Stop(i)) == s.(phases := s.phases[i := Draining(s.phases[i].refreshed)])
    ensures s.phases[i].Draining? ==>
              && Possible(s, Release(i))
              && Apply(s, Release(i)) == s.(key := None, phases := s.phases[i := Gone], freeAt := s.now)
  {
  }
}
