/** The LRU registry of tenant contexts (infra/registry.py).

    A context is named by the number of contexts constructed before it, so no two
    constructions share a name and "closed twice" is something a log can show. */
module TenantRegistry {
  import opened Common

  /** One item of the ordered dictionary. */
  datatype Entry = Entry(account: int, ctx: nat)

  /** The registry's state and the two facts about the outside world that matter:
      how many contexts were constructed, and which were closed, in order. */
  datatype State = State(tenants: seq<Entry>, created: nat, closed: seq<nat>)

  const EMPTY := State([], 0, [])

  function Accounts(ts: seq<Entry>): (r: seq<int>)
    ensures |r| == |ts| && forall i | 0 <= i < |ts| :: r[i] == ts[i].account
  {
    seq(|ts|, i requires 0 <= i < |ts| => ts[i].account)
  }

  function Contexts(ts: seq<Entry>): (r: seq<nat>)
    ensures |r| == |ts| && forall i | 0 <= i < |ts| :: r[i] == ts[i].ctx
  {
    seq(|ts|, i requires 0 <= i < |ts| => ts[i].ctx)
  }

  ghost predicate Distinct<T>(s: seq<T>) {
    forall i, j | 0 <= i < j < |s| :: s[i] != s[j]
  }

  ghost predicate Valid(s: State, cap: nat) {
    Distinct(Accounts(s.tenants)) && |s.tenants| <= cap
  }

  /** Position of an account, or the length when it is absent. */
  function Position(ts: seq<Entry>, account: int): (i: nat)
    ensures i <= |ts|
    ensures i < |ts| ==> ts[i].account == account
    ensures forall k | 0 <= k < i :: ts[k].account != account
  {
    if ts == [] || ts[0].account == account then 0 else 1 + Position(ts[1..], account)
  }

  function Without(ts: seq<Entry>, account: int): seq<Entry> {
    var i := Position(ts, account);
    if i < |ts| then ts[..i] + ts[i + 1..] else ts
  }

  /** What one access leaves behind: the account at the recent end, and the oldest
      entries beyond the capacity closed. */
  ghost function Touch(s: State, account: int, cap: nat): State {
    var i := Position(s.tenants, account);
    if i < |s.tenants| then
      s.(tenants := Without(s.tenants, account) + [s.tenants[i]])
    else
      var all := s.tenants + [Entry(account, s.created)];
      var drop := if |all| > cap then |all| - cap else 0;
      State(all[drop..], s.created + 1, s.closed + Contexts(all[..drop]))
  }

  lemma MovedAreDistinct(held: seq<int>, i: nat)
    requires i < |held| && Distinct(held)
    ensures Distinct(held[..i] + held[i + 1..] + [held[i]])
  {
    var n, held' := |held|, held[..i] + held[i + 1..] + [held[i]];
    forall k, l | 0 <= k < l < n ensures held'[k] != held'[l] {
      var p, q := Source(k, i, n), Source(l, i, n);
      assert held'[k] == held[p] && held'[l] == held[q] && p != q;
    }
  }

  lemma JoinedAreDistinct(held: seq<int>, account: int, drop: nat)
    requires drop <= |held| + 1 && Distinct(held) && account !in held
    ensures Distinct((held + [account])[drop..])
  {
  }

  /** An access keeps the accounts distinct and within the capacity. */
  lemma TouchIsValid(s: State, account: int, cap: nat)
    requires Valid(s, cap)
    ensures Valid(Touch(s, account, cap), cap)
  {
    var held, i := Accounts(s.tenants), Position(s.tenants, account);
    if i < |s.tenants| {
      WithoutAccounts(s.tenants, account);
      MovedAreDistinct(held, i);
      assert Accounts(Touch(s, account, cap).tenants) == held[..i] + held[i + 1..] + [held[i]];
    } else {
      var drop := if |held| + 1 > cap then |held| + 1 - cap else 0;
      JoinedAreDistinct(held, account, drop);
      assert Accounts(Touch(s, account, cap).tenants) == (held + [account])[drop..];
    }
  }

  ghost function Drop(s: State, account: int): State {
    var i := Position(s.tenants, account);
    if i < |s.tenants| then
      State(Without(s.tenants, account), s.created, s.closed + [s.tenants[i].ctx])
    else s
  }

  ghost function Shut(s: State): State {
    State([], s.created, s.closed + Contexts(s.tenants))
  }

  class Registry {
    const maxTenants: nat
    var tenants: seq<Entry>
    var created: nat
    var closed: seq<nat>

    ghost function Value(): State
      reads this
    {
      State(tenants, created, closed)
    }

    constructor (cap: nat)
      ensures maxTenants == cap && Value() == EMPTY
    {
      maxTenants, tenants, created, closed := cap, [], 0, [];
    }

    /** Returns the account's context. The one returned is still open unless the
        capacity is zero, in which case the new context was evicted at once. */
    method Get(account: int) returns (ctx: nat)
      requires Valid(Value(), maxTenants)
      modifies this
      ensures Valid(Value(), maxTenants)
      ensures Value() == Touch(old(Value()), account, maxTenants)
      ensures maxTenants > 0 ==> |tenants| > 0 && tenants[|tenants| - 1] == Entry(account, ctx)
      ensures var i := Position(old(tenants), account);
              ctx == if i < |old(tenants)| then old(tenants)[i].ctx else old(created)
    {
      TouchIsValid(Value(), account, maxTenants);
      var i := Position(tenants, account);
      if i < |tenants| {
        var hit := tenants[i];
        tenants := tenants[..i] + tenants[i + 1..] + [hit];
        ctx := hit.ctx;
        return;
      }
      ctx := created;
      created := created + 1;
      tenants := tenants + [Entry(account, ctx)];
      EvictIfNeeded();
    }

    /** Closes from the old end until the registry fits. */
    method EvictIfNeeded()
      modifies this`tenants, this`closed
      ensures |tenants| <= maxTenants
      ensures var drop := if |old(tenants)| > maxTenants then |old(tenants)| - maxTenants else 0;
              && tenants == old(tenants)[drop..]
              && closed == old(closed) + Contexts(old(tenants)[..drop])
    {
      ghost var n := 0;
      while |tenants| > maxTenants
        invariant 0 <= n <= |old(tenants)| && (n == 0 || |tenants| >= maxTenants)
        invariant tenants == old(tenants)[n..]
        invariant closed == old(closed) + Contexts(old(tenants)[..n])
      {
        var oldest := tenants[0];
        tenants := tenants[1..];
        closed := closed + [oldest.ctx];
        assert Contexts(old(tenants)[..n + 1]) == Contexts(old(tenants)[..n]) + [oldest.ctx];
        n := n + 1;
      }
    }

    method Invalidate(account: int)
      requires Valid(Value(), maxTenants)
      modifies this
      ensures Valid(Value(), maxTenants)
      ensures Value() == Drop(old(Value()), account)
    {
      var i := Position(tenants, account);
      if i < |tenants| {
        closed := closed + [tenants[i].ctx];
        tenants := tenants[..i] + tenants[i + 1..];
      }
    }

    method CloseAll()
      modifies this
      ensures Value() == Shut(old(Value()))
    {
      for i := 0 to |tenants|
        invariant tenants == old(tenants) && created == old(created)
        invariant closed == old(closed) + Contexts(tenants[..i])
      {
        assert Contexts(tenants[..i + 1]) == Contexts(tenants[..i]) + [tenants[i].ctx];
        closed := closed + [tenants[i].ctx];
      }
      assert tenants[..|tenants|] == tenants;
      tenants := [];
    }
  }

  // ---- Runs ----

  datatype Op = Get(account: int) | Invalidate(account: int) | CloseAll

  ghost function Apply(s: State, op: Op, cap: nat): State {
    match op
    case Get(a) => Touch(s, a, cap)
    case Invalidate(a) => Drop(s, a)
    case CloseAll => Shut(s)
  }

  ghost function Run(ops: seq<Op>, cap: nat): State {
    if ops == [] then EMPTY else Apply(Run(ops[..|ops| - 1], cap), ops[|ops| - 1], cap)
  }

  ghost function Gets(trace: seq<int>): (ops: seq<Op>)
    ensures |ops| == |trace| && forall i | 0 <= i < |trace| :: ops[i] == Get(trace[i])
  {
    seq(|trace|, i requires 0 <= i < |trace| => Get(trace[i]))
  }

  /** Index of the last access to an account, -1 when there was none. */
  ghost function LastUse(trace: seq<int>, account: int): (i: int)
    ensures -1 <= i < |trace|
  {
    if trace == [] then -1
    else
      var n := |trace| - 1;
      if trace[n] == account then n else LastUse(trace[..n], account)
  }

  lemma LastUseIsLast(trace: seq<int>, account: int)
    ensures var i := LastUse(trace, account);
            && (i >= 0 ==> trace[i] == account)
            && (forall k | i < k < |trace| :: trace[k] != account)
  {
  }

  ghost function Used(trace: seq<int>): set<int> {
    set a | a in trace
  }

  ghost function Rank(trace: seq<int>): int -> int {
    account => LastUse(trace, account)
  }

  /** `held` lists the most recently used distinct accounts of the trace, oldest first:
      everything else was used earlier or never. */
  ghost predicate MostRecent(held: seq<int>, trace: seq<int>) {
    TopRanked(held, Rank(trace))
  }

  ghost predicate TopRanked(held: seq<int>, rank: int -> int) {
    && (forall i, j | 0 <= i < j < |held| :: rank(held[i]) < rank(held[j]))
    && (held != [] ==> rank(held[0]) >= 0 && forall a {:trigger a in held} | a !in held :: rank(a) < rank(held[0]))
  }

  /** At most `cap` of them, and fewer only when fewer accounts were ever used. */
  ghost predicate FillsUp(held: seq<int>, trace: seq<int>, cap: nat) {
    |held| == (if |Used(trace)| <= cap then |Used(trace)| else cap)
  }

  ghost function Held(trace: seq<int>, cap: nat): seq<int> {
    Accounts(Run(Gets(trace), cap).tenants)
  }

  lemma WithoutAccounts(ts: seq<Entry>, account: int)
    ensures var i, a := Position(ts, account), Accounts(ts);
            Accounts(Without(ts, account)) == if i < |ts| then a[..i] + a[i + 1..] else a
  {
  }

  lemma LastUseAppend(trace: seq<int>, account: int, x: int)
    ensures LastUse(trace + [account], x) == if x == account then |trace| else LastUse(trace, x)
  {
    assert (trace + [account])[..|trace|] == trace;
  }

  lemma DistinctSize(s: seq<int>)
    requires Distinct(s)
    ensures |Used(s)| == |s|
  {
    if s != [] {
      var n := |s| - 1;
      DistinctSize(s[..n]);
      assert Used(s) == Used(s[..n]) + {s[n]};
    }
  }

  /** `account` becomes the highest ranked; nothing else changes rank. */
  ghost predicate Promotes(rank: int -> int, rank': int -> int, account: int) {
    && rank'(account) >= 0
    && (forall x :: x != account ==> rank'(x) == rank(x) && rank(x) < rank'(account))
  }

  /** Where the k-th account stood before account i moved to the recent end. */
  function Source(k: nat, i: nat, n: nat): nat
    requires i < n && k < n
  {
    if k < i then k else if k < n - 1 then k + 1 else i
  }

  /** A hit: the account moves from position i to the recent end. */
  lemma HitMostRecent(held: seq<int>, rank: int -> int, rank': int -> int, i: nat, held': seq<int>)
    requires i < |held| && held' == held[..i] + held[i + 1..] + [held[i]]
    requires Distinct(held) && TopRanked(held, rank)
    requires Promotes(rank, rank', held[i])
    ensures Distinct(held') && TopRanked(held', rank')
  {
    var n := |held|;
    forall k, l | 0 <= k < l < n
      ensures held'[k] != held'[l] && rank'(held'[k]) < rank'(held'[l])
    {
      var p, q := Source(k, i, n), Source(l, i, n);
      assert held'[k] == held[p] && held'[l] == held[q] && p != i;
    }
    assert held'[n - 1] == held[i];
    forall k | 0 <= k < n ensures held[k] in held' {
      assert held'[if k < i then k else if k == i then n - 1 else k - 1] == held[k];
    }
    assert held'[0] == held[Source(0, i, n)];
    assert forall a {:trigger a in held'} | a !in held' :: a !in held;
  }

  /** A miss, first half: the account joins at the recent end. */
  lemma JoinMostRecent(held: seq<int>, rank: int -> int, rank': int -> int, account: int)
    requires account !in held && Distinct(held) && TopRanked(held, rank)
    requires Promotes(rank, rank', account)
    ensures Distinct(held + [account]) && TopRanked(held + [account], rank')
  {
    var all := held + [account];
    assert all[0] == if held == [] then account else held[0];
    assert all[|held|] == account;
    forall a | a !in all ensures rank'(a) < rank'(all[0]) {
      assert a !in held;
    }
  }

  /** A miss, second half: old entries leave at the other end. */
  lemma CutMostRecent(all: seq<int>, rank: int -> int, drop: nat)
    requires drop <= |all| && Distinct(all) && TopRanked(all, rank)
    ensures Distinct(all[drop..]) && TopRanked(all[drop..], rank)
  {
    var cut := all[drop..];
    if cut != [] {
      assert cut[0] == all[drop];
      forall a | a !in cut ensures rank(a) < rank(cut[0]) {
        if a in all {
          var k :| 0 <= k < |all| && all[k] == a;
          assert forall j | 0 <= j < |cut| :: cut[j] == all[drop + j];
        }
      }
    }
  }

  lemma UsedByMostRecent(held: seq<int>, trace: seq<int>)
    requires MostRecent(held, trace)
    ensures Used(held) <= Used(trace)
  {
    forall a | a in held ensures a in trace {
      var i :| 0 <= i < |held| && held[i] == a;
      LastUseIsLast(trace, a);
      assert Rank(trace)(held[i]) >= Rank(trace)(held[0]);
    }
  }

  lemma NextTrace(trace: seq<int>, account: int)
    ensures Promotes(Rank(trace), Rank(trace + [account]), account)
    ensures Used(trace + [account]) == Used(trace) + {account}
  {
    forall x { LastUseAppend(trace, account, x); }
  }

  lemma HitAccounts(s: State, account: int, cap: nat)
    requires Valid(s, cap) && Position(s.tenants, account) < |s.tenants|
    ensures var held, i := Accounts(s.tenants), Position(s.tenants, account);
            Accounts(Touch(s, account, cap).tenants) == held[..i] + held[i + 1..] + [held[i]]
  {
    WithoutAccounts(s.tenants, account);
  }

  lemma HitKeepsMostRecent(s: State, trace: seq<int>, account: int, cap: nat)
    requires Valid(s, cap) && Position(s.tenants, account) < |s.tenants|
    requires MostRecent(Accounts(s.tenants), trace) && FillsUp(Accounts(s.tenants), trace, cap)
    ensures var held := Accounts(Touch(s, account, cap).tenants);
            && Valid(Touch(s, account, cap), cap)
            && MostRecent(held, trace + [account]) && FillsUp(held, trace + [account], cap)
  {
    var held, held' := Accounts(s.tenants), Accounts(Touch(s, account, cap).tenants);
    var i := Position(s.tenants, account);
    NextTrace(trace, account);
    UsedByMostRecent(held, trace);
    assert held[i] == account && account in Used(held);
    assert Used(trace + [account]) == Used(trace);
    HitAccounts(s, account, cap);
    HitMostRecent(held, Rank(trace), Rank(trace + [account]), i, held');
  }

  lemma MissKeepsMostRecent(s: State, trace: seq<int>, account: int, cap: nat)
    requires Valid(s, cap) && Position(s.tenants, account) == |s.tenants|
    requires MostRecent(Accounts(s.tenants), trace) && FillsUp(Accounts(s.tenants), trace, cap)
    ensures var held := Accounts(Touch(s, account, cap).tenants);
            && Valid(Touch(s, account, cap), cap)
            && MostRecent(held, trace + [account]) && FillsUp(held, trace + [account], cap)
  {
    var held, held' := Accounts(s.tenants), Accounts(Touch(s, account, cap).tenants);
    NextTrace(trace, account);
    var drop := if |held| + 1 > cap then |held| + 1 - cap else 0;
    assert held' == (held + [account])[drop..];
    assert account !in held;
    JoinMostRecent(held, Rank(trace), Rank(trace + [account]), account);
    CutMostRecent(held + [account], Rank(trace + [account]), drop);
    MissFillsUp(held, trace, account, cap);
  }

  lemma MissFillsUp(held: seq<int>, trace: seq<int>, account: int, cap: nat)
    requires account !in held && Distinct(held) && MostRecent(held, trace) && FillsUp(held, trace, cap)
    ensures |Used(trace) + {account}| >= cap || |Used(trace) + {account}| == |held| + 1
    ensures |held| + 1 > cap ==> |Used(trace) + {account}| >= cap
  {
    DistinctSize(held);
    UsedByMostRecent(held, trace);
    SubsetSize(Used(held), Used(trace));
    if |Used(trace)| == |held| {
      assert account !in Used(trace);
    }
    SubsetSize(Used(trace), Used(trace) + {account});
  }

  /** After any trace of accesses the registry holds exactly the last `cap` distinct
      accounts, in recency order. */
  lemma {:induction false} LruHolds(trace: seq<int>, cap: nat)
    ensures Valid(Run(Gets(trace), cap), cap)
    ensures MostRecent(Held(trace, cap), trace) && FillsUp(Held(trace, cap), trace, cap)
  {
    if trace == [] {
      assert Used(trace) == {};
    } else {
      var n := |trace| - 1;
      LruHolds(trace[..n], cap);
      assert Gets(trace)[..n] == Gets(trace[..n]);
      assert trace[..n] + [trace[n]] == trace;
      var s := Run(Gets(trace[..n]), cap);
      if Position(s.tenants, trace[n]) < |s.tenants| {
        HitKeepsMostRecent(s, trace[..n], trace[n], cap);
      } else {
        MissKeepsMostRecent(s, trace[..n], trace[n], cap);
      }
    }
  }

  /** The stack property: a larger registry always holds everything a smaller one does. */
  lemma StackProperty(trace: seq<int>, small: nat, large: nat, account: int)
    requires small <= large && account in Held(trace, small)
    ensures account in Held(trace, large)
  {
    var s, l := Held(trace, small), Held(trace, large);
    LruHolds(trace, small);
    LruHolds(trace, large);
    DistinctSize(s);
    DistinctSize(l);
    UsedByMostRecent(s, trace);
    UsedByMostRecent(l, trace);
    if account !in l {
      // Everything the larger registry holds was used later, so the smaller holds it too.
      forall b | b in Used(l) ensures b in Used(s) - {account} {
        LaterIsHeld(s, l, trace, account, b);
      }
      SubsetSize(Used(l), Used(s) - {account});
      SubsetSize(Used(l), Used(trace) - {account});
      assert false;
    }
  }

  lemma NotHeldIsEarlier(held: seq<int>, trace: seq<int>, out: int, account: int)
    requires MostRecent(held, trace) && out !in held && account in held
    ensures LastUse(trace, out) < LastUse(trace, account)
  {
    var i :| 0 <= i < |held| && held[i] == account;
    assert Rank(trace)(out) < Rank(trace)(held[0]) <= Rank(trace)(held[i]);
  }

  lemma LaterIsHeld(s: seq<int>, l: seq<int>, trace: seq<int>, account: int, b: int)
    requires MostRecent(s, trace) && MostRecent(l, trace)
    requires account in s && account !in l && b in l
    ensures b in s && b != account
  {
    NotHeldIsEarlier(l, trace, account, b);
    if b !in s {
      NotHeldIsEarlier(s, trace, b, account);
      assert false;
    }
  }

  // ---- Every context is cached or closed, once ----

  /** The contexts constructed so far, each exactly once. */
  ghost function Born(n: nat): (m: multiset<nat>)
    ensures forall k: nat :: m[k] == if k < n then 1 else 0
  {
    if n == 0 then multiset{} else Born(n - 1)[n - 1 := 1]
  }

  ghost predicate Accounted(s: State) {
    multiset(s.closed) + multiset(Contexts(s.tenants)) == Born(s.created)
  }

  /** Moving one item to the end loses nothing. */
  lemma MoveToEnd(cs: seq<nat>, i: nat)
    requires i < |cs|
    ensures multiset(cs[..i] + cs[i + 1..] + [cs[i]]) == multiset(cs)
    ensures multiset(cs[..i] + cs[i + 1..]) + multiset{cs[i]} == multiset(cs)
  {
    assert cs == cs[..i] + [cs[i]] + cs[i + 1..];
  }

  lemma WithoutContexts(ts: seq<Entry>, account: int)
    ensures var i, cs := Position(ts, account), Contexts(ts);
            Contexts(Without(ts, account)) == if i < |ts| then cs[..i] + cs[i + 1..] else cs
  {
  }

  lemma TouchKeepsAccounted(s: State, account: int, cap: nat)
    requires Accounted(s)
    ensures Accounted(Touch(s, account, cap))
  {
    if Position(s.tenants, account) < |s.tenants| {
      HitContexts(s, account, cap);
    } else {
      MissContexts(s, account, cap);
      BornNext(s.created);
    }
  }

  lemma HitContexts(s: State, account: int, cap: nat)
    requires Position(s.tenants, account) < |s.tenants|
    ensures multiset(Contexts(Touch(s, account, cap).tenants)) == multiset(Contexts(s.tenants))
  {
    var cs, i := Contexts(s.tenants), Position(s.tenants, account);
    WithoutContexts(s.tenants, account);
    assert Contexts(Touch(s, account, cap).tenants) == cs[..i] + cs[i + 1..] + [cs[i]];
    MoveToEnd(cs, i);
  }

  lemma MissContexts(s: State, account: int, cap: nat)
    requires Position(s.tenants, account) == |s.tenants|
    ensures var s' := Touch(s, account, cap);
            multiset(s'.closed) + multiset(Contexts(s'.tenants)) ==
            multiset(s.closed) + multiset(Contexts(s.tenants)) + multiset{s.created}
  {
    var all := s.tenants + [Entry(account, s.created)];
    assert Contexts(all) == Contexts(s.tenants) + [s.created];
    EvictAccounted(s.closed, all, if |all| > cap then |all| - cap else 0);
  }

  lemma BornNext(n: nat)
    ensures Born(n + 1) == Born(n) + multiset{n}
  {
  }

  lemma EvictAccounted(closed: seq<nat>, all: seq<Entry>, drop: nat)
    requires drop <= |all|
    ensures multiset(closed + Contexts(all[..drop])) + multiset(Contexts(all[drop..]))
         == multiset(closed) + multiset(Contexts(all))
  {
    assert Contexts(all) == Contexts(all[..drop]) + Contexts(all[drop..]);
  }

  lemma DropKeepsAccounted(s: State, account: int)
    requires Accounted(s)
    ensures Accounted(Drop(s, account))
  {
    WithoutContexts(s.tenants, account);
    if Position(s.tenants, account) < |s.tenants| {
      MoveToEnd(Contexts(s.tenants), Position(s.tenants, account));
    }
  }

  lemma {:induction false} RunAccounted(ops: seq<Op>, cap: nat)
    ensures Accounted(Run(ops, cap))
  {
    if ops != [] {
      var n := |ops| - 1;
      RunAccounted(ops[..n], cap);
      match ops[n]
      case Get(a) => TouchKeepsAccounted(Run(ops[..n], cap), a, cap);
      case Invalidate(a) => DropKeepsAccounted(Run(ops[..n], cap), a);
      case CloseAll =>
    }
  }

  /** Over any run, each constructed context is cached and open, or closed exactly once. */
  lemma CachedOrClosedOnce(ops: seq<Op>, cap: nat, ctx: nat)
    requires ctx < Run(ops, cap).created
    ensures var s := Run(ops, cap);
            multiset(s.closed)[ctx] + multiset(Contexts(s.tenants))[ctx] == 1
  {
    RunAccounted(ops, cap);
    var s := Run(ops, cap);
    assert Born(s.created)[ctx] == (multiset(s.closed) + multiset(Contexts(s.tenants)))[ctx];
  }

  // ---- Each operation, entry by entry ----

  /** Where an account stands among the entries, given what stands around it. */
  lemma {:induction false} StandsBetween(front: seq<Entry>, e: Entry, back: seq<Entry>)
    requires forall k | 0 <= k < |front| :: front[k].account != e.account
    ensures Position(front + [e] + back, e.account) == |front|
    ensures Without(front + [e] + back, e.account) == front + back
  {
    var ts := front + [e] + back;
    assert ts[|front|] == e;
    assert forall k | 0 <= k < |front| :: ts[k] == front[k];
    assert ts[..|front|] == front && ts[|front| + 1..] == back;
  }

  /** An account that is held goes to the recent end with its context; the others keep their order,
      nothing is constructed and nothing closed. */
  lemma HitsInEntries(s: State, front: seq<Entry>, e: Entry, back: seq<Entry>, cap: nat)
    requires s.tenants == front + [e] + back && forall k | 0 <= k < |front| :: front[k].account != e.account
    ensures Touch(s, e.account, cap) == s.(tenants := front + back + [e])
  {
    StandsBetween(front, e, back);
    assert s.tenants[|front|] == e;
  }

  /** Another account gets a new context at the recent end; if that is one too many the oldest goes
      and is closed. */
  lemma MissesInEntries(s: State, account: int, cap: nat)
    requires |s.tenants| <= cap && forall k | 0 <= k < |s.tenants| :: s.tenants[k].account != account
    ensures var e := Entry(account, s.created);
            && (|s.tenants| < cap ==> Touch(s, account, cap) == State(s.tenants + [e], s.created + 1, s.closed))
            && (|s.tenants| == cap && cap > 0 ==>
                  Touch(s, account, cap) ==
                  State(s.tenants[1..] + [e], s.created + 1, s.closed + [s.tenants[0].ctx]))
            && (cap == 0 ==> Touch(s, account, cap) == State([], s.created + 1, s.closed + [s.created]))
  {
    var all := s.tenants + [Entry(account, s.created)];
    if |s.tenants| < cap {
      assert all[0..] == all && Contexts(all[..0]) == [];
    } else {
      assert Contexts(all[..1]) == [all[0].ctx];
    }
  }

  /** Invalidating takes the account's entry out and closes its context, and leaves a registry that
      does not hold the account alone. Closing all closes from the old end. */
  lemma DropsInEntries(s: State, front: seq<Entry>, e: Entry, back: seq<Entry>, other: int)
    requires s.tenants == front + [e] + back && forall k | 0 <= k < |front| :: front[k].account != e.account
    requires forall k | 0 <= k < |s.tenants| :: s.tenants[k].account != other
    ensures Drop(s, e.account) == State(front + back, s.created, s.closed + [e.ctx])
    ensures Drop(s, other) == s
    ensures Shut(s).tenants == [] && Shut(s).created == s.created
    ensures |Shut(s).closed| == |s.closed| + |s.tenants| && s.closed <= Shut(s).closed
    ensures forall k | 0 <= k < |s.tenants| :: Shut(s).closed[|s.closed| + k] == s.tenants[k].ctx
  {
    StandsBetween(front, e, back);
    assert s.tenants[|front|] == e;
  }
}
