/** The in-process single-flight registry (infra/cache.py, get_or_compute).

    Callers are coroutines on one event loop: a step runs from one await to the next. The
    registry lock may be held across an await, by a caller that finds an entry on its
    second look. No caller is cancelled and no fetch calls back into the registry. */
module SingleFlight {
  import opened Common

  datatype Outcome = Value(v: int) | Raised(e: int)

  datatype Future = Pending | Resolved(o: Outcome)

  /** Where a caller is suspended. */
  datatype Pc =
    | Begin                              // reading the cache
    | Peek                               // taking the registry lock for the first look
    | Enter                              // taking it again, to re-check and register
    | Follow(leader: nat, holding: bool) // awaiting the leader's future
    | Ask                                // asking Redis for the cross-process lock
    | Poll(left: nat)                    // another process has it: re-reading the cache
    | Compute(got: bool)                 // inside fetch()
    | Store(got: bool, v: int)           // writing the cache
    | FreeOk(v: int)                     // releasing the Redis lock after a value
    | FreeErr(e: int)                    // releasing it after an exception
    | Leave(o: Outcome)                  // taking the registry lock to pop the entry
    | Returned(o: Outcome, via: Option<nat>)

  /** `keys` is what each caller asked for; the rest changes. */
  datatype State = State(
    keys: seq<string>, pcs: seq<Pc>, futures: seq<Future>,
    inflight: map<string, nat>, lock: Option<nat>)

  /** What the outside answers when a caller resumes. */
  datatype Reply = Hit(v: int) | Miss | Granted | Denied | Fetched(v: int) | Failed(e: int) | Done

  ghost predicate Shape(s: State) {
    |s.pcs| == |s.keys| && |s.futures| == |s.keys|
  }

  /** A caller that registered itself and has not yet popped its entry. */
  predicate Leading(p: Pc) {
    p.Ask? || p.Poll? || p.Compute? || p.Store? || p.FreeOk? || p.FreeErr? || p.Leave?
  }

  predicate NeedsLock(p: Pc) {
    p.Peek? || p.Enter? || p.Leave?
  }

  /** Whether the caller can take its next step now. */
  predicate Enabled(s: State, c: nat)
    requires Shape(s) && c < |s.pcs|
  {
    match s.pcs[c]
    case Returned(_, _) => false
    case Follow(l, _) => l < |s.futures| && s.futures[l].Resolved?
    case p => NeedsLock(p) ==> s.lock.None?
  }

  predicate Answers(p: Pc, r: Reply) {
    match p
    case Begin => r.Hit? || r.Miss?
    case Ask => r.Granted? || r.Denied?
    case Poll(_) => r.Hit? || r.Miss?
    case Compute(_) => r.Fetched? || r.Failed?
    case _ => r.Done?
  }

  function PollOrCompute(left: nat): Pc {
    if left == 0 then Compute(false) else Poll(left)
  }

  function At(s: State, c: nat, p: Pc): State
    requires c < |s.pcs|
  {
    s.(pcs := s.pcs[c := p])
  }

  function Resolve(s: State, c: nat, o: Outcome): State
    requires c < |s.futures|
  {
    s.(futures := s.futures[c := Resolved(o)])
  }

  /** One step of caller c. `polls` is how often a denied owner re-reads the cache. */
  function Step(s: State, c: nat, r: Reply, polls: nat): State
    requires Shape(s) && c < |s.pcs| && Enabled(s, c) && Answers(s.pcs[c], r)
  {
    var key := s.keys[c];
    match s.pcs[c]
    case Begin =>
      if r.Hit? then At(s, c, Returned(Value(r.v), None)) else At(s, c, Peek)
    case Peek =>
      if key in s.inflight then At(s, c, Follow(s.inflight[key], false)) else At(s, c, Enter)
    case Enter =>
      if key in s.inflight then At(s, c, Follow(s.inflight[key], true)).(lock := Some(c))
      else At(s, c, Ask).(inflight := s.inflight[key := c])
    case Follow(l, holding) =>
      At(s, c, Returned(s.futures[l].o, Some(l))).(lock := if holding then None else s.lock)
    case Ask =>
      if r.Granted? then At(s, c, Compute(true)) else At(s, c, PollOrCompute(polls))
    case Poll(left) =>
      if r.Hit? then Resolve(At(s, c, Leave(Value(r.v))), c, Value(r.v))
      else At(s, c, PollOrCompute(if left > 0 then left - 1 else 0))
    case Compute(got) =>
      if r.Fetched? then At(s, c, Store(got, r.v))
      else if got then At(s, c, FreeErr(r.e))
      else Resolve(At(s, c, Leave(Raised(r.e))), c, Raised(r.e))
    case Store(got, v) =>
      Resolve(At(s, c, if got then FreeOk(v) else Leave(Value(v))), c, Value(v))
    case FreeOk(v) => At(s, c, Leave(Value(v)))
    case FreeErr(e) => Resolve(At(s, c, Leave(Raised(e))), c, Raised(e))
    case Leave(o) =>
      At(s, c, Returned(o, Some(c))).(inflight := map k | k in s.inflight && k != key :: s.inflight[k])
    case Returned(_, _) => s
  }

  // ---- The invariant ----

  /** What a caller's own future says, from where the caller is. */
  predicate OwnFuture(p: Pc, c: nat, f: Future) {
    match p
    case FreeOk(v) => f == Resolved(Value(v))
    case Leave(o) => f == Resolved(o)
    case Returned(o, l) => f == if l == Some(c) then Resolved(o) else Pending
    case _ => f == Pending
  }

  /** `l` registered itself for this key: it is leading still, or has returned its own outcome. */
  predicate Led(s: State, l: nat, key: string)
    requires Shape(s)
  {
    l < |s.pcs| && s.keys[l] == key && (Leading(s.pcs[l]) || (s.pcs[l].Returned? && s.pcs[l].via == Some(l)))
  }

  ghost predicate CallerOk(s: State, c: nat)
    requires Shape(s) && c < |s.pcs|
  {
    && OwnFuture(s.pcs[c], c, s.futures[c])
    && (Leading(s.pcs[c]) ==> s.keys[c] in s.inflight && s.inflight[s.keys[c]] == c)
    && (s.pcs[c].Follow? ==> s.pcs[c].leader != c && Led(s, s.pcs[c].leader, s.keys[c])
                             && (s.pcs[c].holding <==> s.lock == Some(c)))
    && (s.pcs[c].Returned? && s.pcs[c].via.Some? ==>
          Led(s, s.pcs[c].via.value, s.keys[c]) && s.futures[s.pcs[c].via.value] == Resolved(s.pcs[c].o))
  }

  ghost predicate Inv(s: State) {
    && Shape(s)
    && (forall c: nat | c < |s.pcs| :: CallerOk(s, c))
    && (forall k | k in s.inflight ::
        s.inflight[k] < |s.pcs| && s.keys[s.inflight[k]] == k && Leading(s.pcs[s.inflight[k]]))
    && (s.lock.Some? ==> s.lock.value < |s.pcs| && s.pcs[s.lock.value].Follow? && s.pcs[s.lock.value].holding)
  }

  function Start(keys: seq<string>): State {
    State(keys, seq(|keys|, _ => Begin), seq(|keys|, _ => Pending), map[], None)
  }

  lemma StartInv(keys: seq<string>)
    ensures Inv(Start(keys))
  {
  }

  /** Only the stepping caller's program counter and future change, and the entry for its
      own key. */
  lemma StepLocal(s: State, c: nat, r: Reply, polls: nat)
    requires Inv(s) && c < |s.pcs| && Enabled(s, c) && Answers(s.pcs[c], r)
    ensures var s' := Step(s, c, r, polls);
            && Shape(s') && s'.keys == s.keys
            && (forall d: nat | d < |s.pcs| && d != c :: s'.pcs[d] == s.pcs[d] && s'.futures[d] == s.futures[d])
            && (forall k | k != s.keys[c] :: (k in s'.inflight <==> k in s.inflight)
                                             && (k in s.inflight ==> s'.inflight[k] == s.inflight[k]))
  {
  }

  /** Having led is for good. */
  lemma LedStays(s: State, c: nat, r: Reply, polls: nat, l: nat, key: string)
    requires Inv(s) && c < |s.pcs| && Enabled(s, c) && Answers(s.pcs[c], r) && Led(s, l, key)
    ensures Shape(Step(s, c, r, polls)) && Led(Step(s, c, r, polls), l, key)
  {
  }

  /** A resolved future keeps its outcome, and only its own caller resolves it. */
  lemma FutureResolvesOnce(s: State, c: nat, r: Reply, polls: nat, d: nat)
    requires Inv(s) && c < |s.pcs| && d < |s.pcs| && Enabled(s, c) && Answers(s.pcs[c], r)
    ensures var s' := Step(s, c, r, polls);
            && Shape(s')
            && (s.futures[d].Resolved? ==> s'.futures[d] == s.futures[d])
            && (s.futures[d].Pending? && s'.futures[d].Resolved? ==> d == c && Leading(s.pcs[d]))
  {
    assert CallerOk(s, c) && CallerOk(s, d);
  }

  lemma StepKeepsCaller(s: State, c: nat, r: Reply, polls: nat, d: nat)
    requires Inv(s) && c < |s.pcs| && d < |s.pcs| && Enabled(s, c) && Answers(s.pcs[c], r)
    ensures var s' := Step(s, c, r, polls); Shape(s') && CallerOk(s', d)
  {
    var s' := Step(s, c, r, polls);
    assert CallerOk(s, c) && CallerOk(s, d);
    StepLocal(s, c, r, polls);
    if d != c {
      OtherCaller(s, c, r, polls, d);
    } else {
      match s.pcs[c]
      case Follow(l, _) => LedStays(s, c, r, polls, l, s.keys[c]);
      case _ =>
    }
  }

  lemma OtherCaller(s: State, c: nat, r: Reply, polls: nat, d: nat)
    requires Inv(s) && c < |s.pcs| && d < |s.pcs| && d != c && Enabled(s, c) && Answers(s.pcs[c], r)
    ensures var s' := Step(s, c, r, polls); Shape(s') && CallerOk(s', d)
  {
    assert CallerOk(s, c) && CallerOk(s, d);
    StepLocal(s, c, r, polls);
    match s.pcs[d]
    case Follow(l, _) => LedStays(s, c, r, polls, l, s.keys[d]);
    case Returned(_, l) =>
      if l.Some? {
        LedStays(s, c, r, polls, l.value, s.keys[d]);
        FutureResolvesOnce(s, c, r, polls, l.value);
      }
    case _ =>
  }

  lemma StepKeepsInv(s: State, c: nat, r: Reply, polls: nat)
    requires Inv(s) && c < |s.pcs| && Enabled(s, c) && Answers(s.pcs[c], r)
    ensures Inv(Step(s, c, r, polls))
  {
    var s' := Step(s, c, r, polls);
    StepLocal(s, c, r, polls);
    forall d: nat | d < |s'.pcs| ensures CallerOk(s', d) {
      StepKeepsCaller(s, c, r, polls, d);
    }
    assert CallerOk(s, c);
    forall k | k in s'.inflight
      ensures s'.inflight[k] < |s'.pcs| && s'.keys[s'.inflight[k]] == k && Leading(s'.pcs[s'.inflight[k]])
    {
      if k in s.inflight {
        assert CallerOk(s, s.inflight[k]);
      }
    }
  }

  // ---- Runs ----

  datatype Move = Move(caller: nat, reply: Reply)

  /** A run: any interleaving of enabled steps, with any replies. */
  ghost predicate Run(trace: seq<State>, moves: seq<Move>, keys: seq<string>, polls: nat) {
    && |trace| == |moves| + 1 && trace[0] == Start(keys)
    && (forall i | 0 <= i < |moves| :: Takes(trace[i], trace[i + 1], moves[i], polls))
  }

  ghost predicate Takes(s: State, s': State, m: Move, polls: nat) {
    && Shape(s) && m.caller < |s.pcs| && Enabled(s, m.caller) && Answers(s.pcs[m.caller], m.reply)
    && s' == Step(s, m.caller, m.reply, polls)
  }

  lemma {:induction false} RunInv(trace: seq<State>, moves: seq<Move>, keys: seq<string>, polls: nat)
    requires Run(trace, moves, keys, polls)
    ensures Inv(trace[|moves|]) && trace[|moves|].keys == keys
  {
    if moves == [] {
      StartInv(keys);
    } else {
      var n := |moves| - 1;
      RunInv(trace[..n + 1], moves[..n], keys, polls);
      assert Takes(trace[n], trace[n + 1], moves[n], polls);
      StepKeepsInv(trace[n], moves[n].caller, moves[n].reply, polls);
    }
  }

  /** In every reachable state a key has at most one caller on the cold path, so at most
      one is inside fetch() for it. */
  lemma OneOwnerPerKey(trace: seq<State>, moves: seq<Move>, keys: seq<string>, polls: nat, c: nat, d: nat)
    requires Run(trace, moves, keys, polls) && c < |keys| && d < |keys| && keys[c] == keys[d]
    ensures var s := trace[|moves|];
            Shape(s) && |s.pcs| == |keys| && (Leading(s.pcs[c]) && Leading(s.pcs[d]) ==> c == d)
  {
    RunInv(trace, moves, keys, polls);
    var s := trace[|moves|];
    assert CallerOk(s, c) && CallerOk(s, d);
  }

  /** Every caller that collapsed into another returns that caller's own outcome, and the
      other was registered for the same key. */
  lemma CollapsedCallersAgree(trace: seq<State>, moves: seq<Move>, keys: seq<string>, polls: nat, c: nat)
    requires Run(trace, moves, keys, polls) && c < |keys|
    ensures var s := trace[|moves|];
            Shape(s) && |s.pcs| == |keys| &&
            match s.pcs[c]
            case Returned(o, Some(l)) =>
              && l < |keys| && keys[l] == keys[c] && s.futures[l] == Resolved(o)
              && (s.pcs[l].Returned? ==> s.pcs[l].o == o && s.pcs[l].via == Some(l))
            case _ => true
  {
    RunInv(trace, moves, keys, polls);
    var s := trace[|moves|];
    assert CallerOk(s, c);
    match s.pcs[c]
    case Returned(o, Some(l)) => assert CallerOk(s, l);
    case _ =>
  }

  /** An entry leaves the registry only in the step of the caller it names. */
  lemma PoppedByItsOwner(s: State, c: nat, r: Reply, polls: nat, k: string)
    requires Inv(s) && c < |s.pcs| && Enabled(s, c) && Answers(s.pcs[c], r) && k in s.inflight
    ensures k !in Step(s, c, r, polls).inflight ==> s.inflight[k] == c && s.pcs[c].Leave?
    ensures k in Step(s, c, r, polls).inflight ==> Step(s, c, r, polls).inflight[k] == s.inflight[k]
  {
    assert CallerOk(s, c);
  }

  // ---- Progress ----

  ghost predicate AllReturned(s: State) {
    forall c: nat | c < |s.pcs| :: s.pcs[c].Returned?
  }

  /** A leader that has not resolved its future never waits for the registry lock. */
  lemma LeaderMoves(s: State, l: nat)
    requires Inv(s) && l < |s.pcs| && Leading(s.pcs[l]) && s.futures[l].Pending?
    ensures Enabled(s, l)
  {
    assert CallerOk(s, l);
  }

  /** Some caller can always move until all have returned, although a waiter may be
      holding the registry lock. */
  lemma SomeoneCanMove(s: State) returns (c: nat)
    requires Inv(s) && !AllReturned(s)
    ensures c < |s.pcs| && Enabled(s, c)
  {
    c := if s.lock.Some? then s.lock.value else (var d: nat :| d < |s.pcs| && !s.pcs[d].Returned?; d);
    assert CallerOk(s, c);
    if s.pcs[c].Follow? && s.futures[s.pcs[c].leader].Pending? {
      c := s.pcs[c].leader;
      assert CallerOk(s, c);
      LeaderMoves(s, c);
    }
  }

  /** How many steps a caller may still take. */
  function Rank(p: Pc, polls: nat): nat {
    match p
    case Begin => polls + 10
    case Peek => polls + 9
    case Enter => polls + 8
    case Ask => polls + 7
    case Poll(left) => left + 6
    case Compute(_) => 5
    case Store(_, _) => 4
    case FreeOk(_) => 3
    case FreeErr(_) => 3
    case Leave(_) => 2
    case Follow(_, _) => 1
    case Returned(_, _) => 0
  }

  function Total(pcs: seq<Pc>, polls: nat): nat {
    if pcs == [] then 0 else Rank(pcs[0], polls) + Total(pcs[1..], polls)
  }

  lemma TotalUpdate(pcs: seq<Pc>, c: nat, p: Pc, polls: nat)
    requires c < |pcs|
    ensures Total(pcs[c := p], polls) + Rank(pcs[c], polls) == Total(pcs, polls) + Rank(p, polls)
  {
    if c == 0 {
      assert pcs[c := p][1..] == pcs[1..];
    } else {
      assert pcs[c := p][1..] == pcs[1..][c - 1 := p];
      TotalUpdate(pcs[1..], c - 1, p, polls);
    }
  }

  /** Every poll counter stays within the number of polls. */
  ghost predicate PollsFit(s: State, polls: nat) {
    forall c: nat | c < |s.pcs| && s.pcs[c].Poll? :: 1 <= s.pcs[c].left <= polls
  }

  lemma StepShrinks(s: State, c: nat, r: Reply, polls: nat)
    requires Inv(s) && PollsFit(s, polls) && c < |s.pcs| && Enabled(s, c) && Answers(s.pcs[c], r)
    ensures PollsFit(Step(s, c, r, polls), polls)
    ensures Total(Step(s, c, r, polls).pcs, polls) < Total(s.pcs, polls)
  {
    var s' := Step(s, c, r, polls);
    assert s'.pcs == s.pcs[c := s'.pcs[c]];
    TotalUpdate(s.pcs, c, s'.pcs[c], polls);
  }

  lemma TotalOfStart(n: nat, polls: nat)
    ensures Total(seq(n, _ => Begin), polls) == n * (polls + 10)
  {
    if n > 0 {
      assert (seq(n, _ => Begin))[1..] == seq(n - 1, _ => Begin);
      TotalOfStart(n - 1, polls);
    }
  }

  lemma {:induction false} RunShrinks(trace: seq<State>, moves: seq<Move>, keys: seq<string>, polls: nat)
    requires Run(trace, moves, keys, polls)
    ensures PollsFit(trace[|moves|], polls)
    ensures |moves| + Total(trace[|moves|].pcs, polls) <= |keys| * (polls + 10)
  {
    if moves == [] {
      TotalOfStart(|keys|, polls);
    } else {
      var n := |moves| - 1;
      RunShrinks(trace[..n + 1], moves[..n], keys, polls);
      RunInv(trace[..n + 1], moves[..n], keys, polls);
      assert Takes(trace[n], trace[n + 1], moves[n], polls);
      StepShrinks(trace[n], moves[n].caller, moves[n].reply, polls);
    }
  }

  /** Every run is finite, with a bound known in advance, and one that cannot be extended
      has answered every caller: nobody waits forever, under any scheduling. */
  lemma EveryCallerReturns(trace: seq<State>, moves: seq<Move>, keys: seq<string>, polls: nat)
    requires Run(trace, moves, keys, polls)
    ensures |moves| <= |keys| * (polls + 10)
    ensures Shape(trace[|moves|])
    ensures (forall c: nat | c < |trace[|moves|].pcs| :: !Enabled(trace[|moves|], c)) ==> AllReturned(trace[|moves|])
  {
    RunShrinks(trace, moves, keys, polls);
    RunInv(trace, moves, keys, polls);
    if !AllReturned(trace[|moves|]) {
      var c := SomeoneCanMove(trace[|moves|]);
    }
  }

  /** When the last caller has returned nothing is left behind: no entry, and the lock free. */
  lemma RegistryEmptiesOut(trace: seq<State>, moves: seq<Move>, keys: seq<string>, polls: nat)
    requires Run(trace, moves, keys, polls)
    ensures Shape(trace[|moves|])
    ensures AllReturned(trace[|moves|]) ==> trace[|moves|].inflight == map[] && trace[|moves|].lock.None?
  {
    RunInv(trace, moves, keys, polls);
  }

  // ---- Where an answer comes from ----

  /** What the outside answered caller c so far, in order. */
  function RepliesTo(moves: seq<Move>, c: nat): seq<Reply> {
    if moves == [] then []
    else
      var n := |moves| - 1;
      RepliesTo(moves[..n], c) + if moves[n].caller == c then [moves[n].reply] else []
  }

  function Misses(n: nat): seq<Reply> {
    if n == 0 then [] else Misses(n - 1) + [Miss]
  }

  /** A miss, two looks into the registry, the lock refused, and so many misses more. */
  function Waited(n: nat): seq<Reply> {
    [Miss, Done, Done, Denied] + Misses(n)
  }

  /** What comes before fetch(): the lock, or every poll in vain. */
  function BeforeFetch(got: bool, polls: nat): seq<Reply> {
    if got then [Miss, Done, Done, Granted] else Waited(polls)
  }

  /** What an owner was answered when it comes to leave with outcome o: fetch() and the cache
      write, then the release if it has the lock; or a hit before the polls were used up; or an
      exception of fetch(). */
  predicate LeavesAfter(o: Outcome, rs: seq<Reply>, polls: nat) {
    match o
    case Value(v) =>
      || rs == BeforeFetch(true, polls) + [Fetched(v)] + [Done] + [Done]
      || rs == BeforeFetch(false, polls) + [Fetched(v)] + [Done]
      || exists k: nat | k < polls :: rs == Waited(k) + [Hit(v)]
    case Raised(e) =>
      || rs == BeforeFetch(true, polls) + [Failed(e)] + [Done]
      || rs == BeforeFetch(false, polls) + [Failed(e)]
  }

  /** The answers that bring caller c where it is. */
  predicate ComesAfter(p: Pc, c: nat, rs: seq<Reply>, polls: nat) {
    match p
    case Begin => rs == []
    case Peek => rs == [Miss]
    case Enter => rs == [Miss, Done]
    case Follow(_, holding) => rs == if holding then [Miss, Done, Done] else [Miss, Done]
    case Ask => rs == [Miss, Done, Done]
    case Poll(left) => 1 <= left <= polls && rs == Waited(polls - left)
    case Compute(got) => rs == BeforeFetch(got, polls)
    case Store(got, v) => rs == BeforeFetch(got, polls) + [Fetched(v)]
    case FreeOk(v) => rs == BeforeFetch(true, polls) + [Fetched(v)] + [Done]
    case FreeErr(e) => rs == BeforeFetch(true, polls) + [Failed(e)]
    case Leave(o) => LeavesAfter(o, rs, polls)
    case Returned(o, None) => o.Value? && rs == [Hit(o.v)]
    case Returned(o, Some(l)) =>
      if l == c then rs != [] && rs[|rs| - 1] == Done && LeavesAfter(o, rs[..|rs| - 1], polls)
      else rs == [Miss, Done, Done] || rs == [Miss, Done, Done, Done]
  }

  lemma PollStep(s: State, c: nat, r: Reply, polls: nat, rs: seq<Reply>)
    requires Shape(s) && c < |s.pcs| && Enabled(s, c) && Answers(s.pcs[c], r) && s.pcs[c].Poll?
    requires ComesAfter(s.pcs[c], c, rs, polls)
    ensures Shape(Step(s, c, r, polls)) && ComesAfter(Step(s, c, r, polls).pcs[c], c, rs + [r], polls)
  {
    var left := s.pcs[c].left;
    assert r.Hit? ==> rs + [r] == Waited(polls - left) + [Hit(r.v)];
    assert r.Miss? ==> rs + [r] == Waited(polls - left + 1);
  }

  lemma StepComesAfter(s: State, c: nat, r: Reply, polls: nat, rs: seq<Reply>)
    requires Inv(s) && c < |s.pcs| && Enabled(s, c) && Answers(s.pcs[c], r)
    requires ComesAfter(s.pcs[c], c, rs, polls)
    ensures Shape(Step(s, c, r, polls)) && ComesAfter(Step(s, c, r, polls).pcs[c], c, rs + [r], polls)
  {
    assert CallerOk(s, c);
    match s.pcs[c]
    case Poll(_) => PollStep(s, c, r, polls, rs);
    case Ask =>
      assert Misses(0) == [];
    case Leave(o) =>
      assert (rs + [r])[..|rs|] == rs;
    case _ =>
  }

  /** Over every run, every caller is where its own answers bring it. A value that is returned is
      the one that fetch() or the cache gave; fetch() is entered once at most, with the lock or
      after all the polls; and the lock is released exactly when it was taken. */
  lemma {:induction false} AnswersAreAccountedFor(trace: seq<State>, moves: seq<Move>, keys: seq<string>, polls: nat,
                                                  c: nat)
    requires Run(trace, moves, keys, polls) && c < |keys|
    ensures Shape(trace[|moves|]) && trace[|moves|].keys == keys
    ensures ComesAfter(trace[|moves|].pcs[c], c, RepliesTo(moves, c), polls)
  {
    RunInv(trace, moves, keys, polls);
    if moves != [] {
      var n := |moves| - 1;
      AnswersAreAccountedFor(trace[..n + 1], moves[..n], keys, polls, c);
      RunInv(trace[..n + 1], moves[..n], keys, polls);
      assert Takes(trace[n], trace[n + 1], moves[n], polls);
      if moves[n].caller == c {
        StepComesAfter(trace[n], c, moves[n].reply, polls, RepliesTo(moves[..n], c));
      } else {
        StepLocal(trace[n], moves[n].caller, moves[n].reply, polls);
        assert RepliesTo(moves, c) == RepliesTo(moves[..n], c);
      }
    }
  }

  /** The moves of a caller that was answered once. */
  lemma {:induction false} OneReplyIsOneMove(moves: seq<Move>, c: nat) returns (i: nat)
    requires |RepliesTo(moves, c)| == 1
    ensures i < |moves| && moves[i] == Move(c, RepliesTo(moves, c)[0])
    ensures forall j | 0 <= j < |moves| && moves[j].caller == c :: j == i
  {
    var n := |moves| - 1;
    if moves[n].caller == c {
      i := n;
      NoReplyIsNoMove(moves[..n], c);
    } else {
      i := OneReplyIsOneMove(moves[..n], c);
    }
  }

  lemma {:induction false} NoReplyIsNoMove(moves: seq<Move>, c: nat)
    requires RepliesTo(moves, c) == []
    ensures forall j | 0 <= j < |moves| :: moves[j].caller != c
  {
    if moves != [] {
      NoReplyIsNoMove(moves[..|moves| - 1], c);
    }
  }

  /** A caller that returned from the cache made one move, and was answered that very value. */
  lemma CachedValueIsAHit(trace: seq<State>, moves: seq<Move>, keys: seq<string>, polls: nat, c: nat, o: Outcome)
    returns (i: nat)
    requires Run(trace, moves, keys, polls) && c < |keys|
    requires c < |trace[|moves|].pcs| && trace[|moves|].pcs[c] == Returned(o, None)
    ensures i < |moves| && o.Value? && moves[i] == Move(c, Hit(o.v))
    ensures forall j | 0 <= j < |moves| && moves[j].caller == c :: j == i
  {
    AnswersAreAccountedFor(trace, moves, keys, polls, c);
    i := OneReplyIsOneMove(moves, c);
  }

  /** The move gets outcome o for its caller l: a value or an exception of fetch(), or a value that
      another process has put into the cache. */
  predicate Gets(s: State, m: Move, l: nat, o: Outcome) {
    && m.caller == l && l < |s.pcs|
    && match o
       case Value(v) => (s.pcs[l].Compute? && m.reply == Fetched(v)) || (s.pcs[l].Poll? && m.reply == Hit(v))
       case Raised(e) => s.pcs[l].Compute? && m.reply == Failed(e)
  }

  ghost predicate Got(trace: seq<State>, moves: seq<Move>, l: nat, o: Outcome)
    requires |trace| == |moves| + 1
  {
    exists i | 0 <= i < |moves| :: Gets(trace[i], moves[i], l, o)
  }

  /** What caller l carries, or its future says, it got. */
  ghost predicate CarriesWhatItGot(trace: seq<State>, moves: seq<Move>, l: nat)
    requires |trace| == |moves| + 1
  {
    var s := trace[|moves|];
    && l < |s.pcs| && l < |s.futures|
    && (s.futures[l].Resolved? ==> Got(trace, moves, l, s.futures[l].o))
    && match s.pcs[l]
       case Store(_, v) => Got(trace, moves, l, Value(v))
       case FreeOk(v) => Got(trace, moves, l, Value(v))
       case FreeErr(e) => Got(trace, moves, l, Raised(e))
       case Leave(o) => Got(trace, moves, l, o)
       case _ => true
  }

  lemma GotGrows(trace: seq<State>, moves: seq<Move>, l: nat, o: Outcome)
    requires |trace| == |moves| + 1 && moves != []
    ensures var n := |moves| - 1;
            Got(trace, moves, l, o) <==> Got(trace[..n + 1], moves[..n], l, o) || Gets(trace[n], moves[n], l, o)
  {
    var n := |moves| - 1;
    if i :| 0 <= i < |moves| && Gets(trace[i], moves[i], l, o) {
      assert i < n ==> Gets(trace[..n + 1][i], moves[..n][i], l, o);
    }
    if i :| 0 <= i < n && Gets(trace[..n + 1][i], moves[..n][i], l, o) {
      assert Gets(trace[i], moves[i], l, o);
    }
  }

  lemma {:induction false} OutcomesAreGot(trace: seq<State>, moves: seq<Move>, keys: seq<string>, polls: nat, l: nat)
    requires Run(trace, moves, keys, polls) && l < |keys|
    ensures CarriesWhatItGot(trace, moves, l)
  {
    if moves != [] {
      var n := |moves| - 1;
      OutcomesAreGot(trace[..n + 1], moves[..n], keys, polls, l);
      RunInv(trace[..n + 1], moves[..n], keys, polls);
      assert Takes(trace[n], trace[n + 1], moves[n], polls);
      assert CallerOk(trace[n], l);
      StepLocal(trace[n], moves[n].caller, moves[n].reply, polls);
      forall o ensures Got(trace, moves, l, o) <==>
                       Got(trace[..n + 1], moves[..n], l, o) || Gets(trace[n], moves[n], l, o) {
        GotGrows(trace, moves, l, o);
      }
    }
  }

  /** Whatever a caller on the cold path returns, the caller it names got from fetch() or from the
      cache: there is the move that got it. */
  lemma SharedOutcomeIsGot(trace: seq<State>, moves: seq<Move>, keys: seq<string>, polls: nat, c: nat, o: Outcome,
                           l: nat)
    requires Run(trace, moves, keys, polls) && c < |keys|
    requires c < |trace[|moves|].pcs| && trace[|moves|].pcs[c] == Returned(o, Some(l))
    ensures exists i | 0 <= i < |moves| :: Gets(trace[i], moves[i], l, o)
  {
    CollapsedCallersAgree(trace, moves, keys, polls, c);
    OutcomesAreGot(trace, moves, keys, polls, l);
  }

  // ---- The registry and its lock ----

  /** While a waiter holds the lock nobody looks into the registry, registers or pops; a waiter
      goes on only when its leader's future says something, and then returns that. */
  lemma LockIsExclusive(s: State, s': State, m: Move, polls: nat)
    requires Inv(s) && Takes(s, s', m, polls)
    ensures m.caller < |s.pcs| && m.caller < |s'.pcs|
    ensures s.lock.Some? ==>
              && s'.inflight == s.inflight
              && !(s.pcs[m.caller].Peek? || s.pcs[m.caller].Enter? || s.pcs[m.caller].Leave?)
    ensures var p := s.pcs[m.caller];
            p.Follow? ==> && p.leader < |s.futures| && s.futures[p.leader].Resolved?
                          && s'.pcs[m.caller] == Returned(s.futures[p.leader].o, Some(p.leader))
  {
  }

  /** What a look does: wait for the caller registered for the key, with the lock only when it is
      the second look; and else look again, or register. An entry goes when its caller leaves. */
  lemma LooksAndRegisters(s: State, s': State, m: Move, polls: nat)
    requires Inv(s) && Takes(s, s', m, polls)
    ensures m.caller < |s.pcs| && m.caller < |s.keys| && m.caller < |s'.pcs|
    ensures var c, key := m.caller, s.keys[m.caller];
            && (s.pcs[c].Peek? ==>
                  && s'.inflight == s.inflight && s'.lock == s.lock
                  && s'.pcs[c] == if key in s.inflight then Follow(s.inflight[key], false) else Enter)
            && (s.pcs[c].Enter? && key in s.inflight ==>
                  s'.inflight == s.inflight && s'.lock == Some(c) && s'.pcs[c] == Follow(s.inflight[key], true))
            && (s.pcs[c].Enter? && key !in s.inflight ==>
                  s'.inflight == s.inflight[key := c] && s'.lock == s.lock && s'.pcs[c] == Ask)
            && (s.pcs[c].Follow? ==> s'.lock == if s.pcs[c].holding then None else s.lock)
            && (s.pcs[c].Leave? ==> s'.inflight == s.inflight - {key} && s'.pcs[c] == Returned(s.pcs[c].o, Some(c)))
  {
  }

  /** What the outside may answer: the cache hits or misses, Redis grants or denies the lock, fetch()
      returns or raises; everything else just comes back. */
  lemma OutsideAnswers(v: int, e: int, p: Pc, left: nat, got: bool)
    ensures Answers(Begin, Hit(v)) && Answers(Begin, Miss)
    ensures Answers(Poll(left), Hit(v)) && Answers(Poll(left), Miss)
    ensures Answers(Ask, Granted) && Answers(Ask, Denied)
    ensures Answers(Compute(got), Fetched(v)) && Answers(Compute(got), Failed(e))
    ensures !(p.Begin? || p.Poll? || p.Ask? || p.Compute?) ==> forall r :: Answers(p, r) <==> r == Done
  {
  }
}
