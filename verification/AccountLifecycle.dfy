/** Suspension, owner deletion, the set-up gate and the purge sweep
    (adapters/storage/accounts.py, interfaces/bot/scheduler.py). Every step is one statement on
    one row; a request that first looks up a name does so in a statement of its own. */
module AccountLifecycle {
  import opened Common
  import opened AlertTables
  import AlertQuery

  datatype Account = Account(
    name: string, active: bool,
    suspendedAt: Option<int>, suspendedBy: Option<int>,
    deletedAt: Option<int>, requestedBy: Option<int>, purgeAt: Option<int>,
    pendingSince: Option<int>)

  type Accounts = map<int, Account>

  // ---- What each statement does to the row it selects ----

  function Suspended(a: Account, operator: int, now: int): Account {
    if a.suspendedAt.Some? then a
    else a.(active := false, suspendedAt := Some(now), suspendedBy := Some(operator))
  }

  predicate CanUnsuspend(a: Account) {
    a.suspendedAt.Some? && a.deletedAt.None?
  }

  function Unsuspended(a: Account): Account {
    if CanUnsuspend(a) then a.(active := true, suspendedAt := None, suspendedBy := None) else a
  }

  function DeletionRequested(a: Account, owner: int, now: int, grace: int): Account {
    if a.deletedAt.Some? then a
    else a.(active := false, deletedAt := Some(now), requestedBy := Some(owner), purgeAt := Some(now + grace))
  }

  function DeletionCancelled(a: Account): Account {
    if a.deletedAt.None? then a
    else a.(active := true, deletedAt := None, requestedBy := None, purgeAt := None)
  }

  predicate Abandoned(a: Account, before: int) {
    a.pendingSince.Some? && a.pendingSince.value <= before
  }

  function Claimed(a: Account, before: int, now: int): Account {
    if Abandoned(a, before) then a.(active := false, deletedAt := Some(now), purgeAt := Some(now)) else a
  }

  function Completed(a: Account, name: string): Account {
    if a.pendingSince.Some? then a.(name := name, pendingSince := None) else a
  }

  datatype Step =
    | Create(id: int, name: string)
    | SetPending(id: int, now: int)
    | Complete(id: int, name: string)
    | ClaimAbandoned(id: int, before: int, now: int)
    | Suspend(id: int, operator: int, now: int)
    | Unsuspend(id: int)
    | RequestDeletion(id: int, owner: int, now: int, grace: int)
    | CancelDeletion(id: int)
    | SetActive(id: int, value: bool)
    | Purge(id: int)

  predicate SameName(x: string, y: string) {
    AlertQuery.Lower(x) == AlertQuery.Lower(y)
  }

  predicate NameTaken(t: Accounts, name: string, except: Option<int>) {
    exists id | id in t :: Some(id) != except && SameName(t[id].name, name)
  }

  /** The row a step leaves, for the steps that update one. */
  function Change(a: Account, s: Step): Account {
    match s
    case SetPending(_, now) => a.(pendingSince := Some(now))
    case Complete(_, name) => Completed(a, name)
    case ClaimAbandoned(_, before, now) => Claimed(a, before, now)
    case Suspend(_, operator, now) => Suspended(a, operator, now)
    case Unsuspend(_) => Unsuspended(a)
    case RequestDeletion(_, owner, now, grace) => DeletionRequested(a, owner, now, grace)
    case CancelDeletion(_) => DeletionCancelled(a)
    case SetActive(_, value) => a.(active := value)
    case _ => a
  }

  /** One statement. What is looked up before it is not looked up again. */
  function Apply(t: Accounts, s: Step): Accounts {
    match s
    case Create(id, name) => t[id := Account(name, true, None, None, None, None, None, None)]
    case Purge(id) => t - {id}
    case _ => if s.id in t then t[s.id := Change(t[s.id], s)] else t
  }

  class AccountTable {
    var rows: Accounts
    var nextId: int

    ghost predicate Valid()
      reads this
    {
      forall id | id in rows :: id < nextId
    }

    constructor ()
      ensures Valid() && rows == map[]
    {
      rows, nextId := map[], 1;
    }

    /** The SELECT that both name writers start with; what it answers is what they remember. */
    method LookUpName(name: string, except: Option<int>) returns (clean: string, taken: bool)
      ensures clean == AlertQuery.Strip(name) && taken == NameTaken(rows, clean, except)
    {
      clean := AlertQuery.Strip(name);
      taken := NameTaken(rows, clean, except);
    }

    /** The INSERT of create_account. No constraint on the name backs it up. */
    method InsertAccount(clean: string) returns (id: int)
      requires Valid()
      modifies this
      ensures Valid() && id !in old(rows) && rows == Apply(old(rows), Create(id, clean))
    {
      id := nextId;
      rows := rows[nextId := Account(clean, true, None, None, None, None, None, None)];
      nextId := nextId + 1;
    }

    method SuspendAccount(id: int, operator: int, now: int) returns (ok: bool)
      requires Valid()
      modifies this`rows
      ensures Valid() && rows == Apply(old(rows), Suspend(id, operator, now))
      ensures ok == (id in old(rows) && old(rows)[id].suspendedAt.None?)
    {
      ok := id in rows && rows[id].suspendedAt.None?;
      if ok {
        rows := rows[id := rows[id].(active := false, suspendedAt := Some(now), suspendedBy := Some(operator))];
      }
    }

    method UnsuspendAccount(id: int) returns (ok: bool)
      requires Valid()
      modifies this`rows
      ensures Valid() && rows == Apply(old(rows), Unsuspend(id))
      ensures ok == (id in old(rows) && CanUnsuspend(old(rows)[id]))
    {
      ok := id in rows && rows[id].suspendedAt.Some? && rows[id].deletedAt.None?;
      if ok {
        rows := rows[id := rows[id].(active := true, suspendedAt := None, suspendedBy := None)];
      }
    }

    /** The purge time, or nothing when a deletion is under way already. */
    method RequestAccountDeletion(id: int, owner: int, now: int, grace: int) returns (purgeAt: Option<int>)
      requires Valid()
      modifies this`rows
      ensures Valid() && rows == Apply(old(rows), RequestDeletion(id, owner, now, grace))
      ensures purgeAt == if id in old(rows) && old(rows)[id].deletedAt.None? then Some(now + grace) else None
    {
      if id in rows && rows[id].deletedAt.None? {
        rows := rows[id := rows[id].(active := false, deletedAt := Some(now), requestedBy := Some(owner),
                                     purgeAt := Some(now + grace))];
        return Some(now + grace);
      }
      return None;
    }

    method CancelAccountDeletion(id: int) returns (ok: bool)
      requires Valid()
      modifies this`rows
      ensures Valid() && rows == Apply(old(rows), CancelDeletion(id))
      ensures ok == (id in old(rows) && old(rows)[id].deletedAt.Some?)
    {
      ok := id in rows && rows[id].deletedAt.Some?;
      if ok {
        rows := rows[id := rows[id].(active := true, deletedAt := None, requestedBy := None, purgeAt := None)];
      }
    }

    /** The first statement of the operator's switch: the value it will write the opposite of. */
    method LookUpActive(id: int) returns (active: Option<bool>)
      ensures active == if id in rows then Some(rows[id].active) else None
    {
      active := if id in rows then Some(rows[id].active) else None;
    }

    /** update_account with is_active. It looks neither at a suspension nor at a deletion. */
    method UpdateActive(id: int, value: bool)
      requires Valid()
      modifies this`rows
      ensures Valid() && rows == Apply(old(rows), SetActive(id, value))
    {
      if id in rows {
        rows := rows[id := rows[id].(active := value)];
      }
    }

    method SetSetupPending(id: int, now: int)
      requires Valid()
      modifies this`rows
      ensures Valid() && rows == Apply(old(rows), SetPending(id, now))
    {
      if id in rows {
        rows := rows[id := rows[id].(pendingSince := Some(now))];
      }
    }

    /** The UPDATE of complete_setup; refused when the account is not pending. */
    method FinishSetup(id: int, clean: string) returns (done: bool)
      requires Valid()
      modifies this`rows
      ensures Valid() && rows == Apply(old(rows), Complete(id, clean))
      ensures done == (id in old(rows) && old(rows)[id].pendingSince.Some?)
    {
      done := id in rows && rows[id].pendingSince.Some?;
      if done {
        rows := rows[id := rows[id].(name := clean, pendingSince := None)];
      }
    }

    method ClaimAbandonedSetup(id: int, before: int, now: int) returns (ok: bool)
      requires Valid()
      modifies this`rows
      ensures Valid() && rows == Apply(old(rows), ClaimAbandoned(id, before, now))
      ensures ok == (id in old(rows) && Abandoned(old(rows)[id], before))
    {
      ok := id in rows && rows[id].pendingSince.Some? && rows[id].pendingSince.value <= before;
      if ok {
        rows := rows[id := rows[id].(active := false, deletedAt := Some(now), purgeAt := Some(now))];
      }
    }

    method ListPendingPurge(before: int) returns (ids: set<int>)
      ensures ids == DueForPurge(rows, before)
    {
      ids := set id | id in rows && rows[id].deletedAt.Some? && rows[id].purgeAt.Some?
                      && rows[id].purgeAt.value <= before;
    }
  }

  function DueForPurge(t: Accounts, before: int): set<int> {
    set id | id in t && t[id].deletedAt.Some? && t[id].purgeAt.Some? && t[id].purgeAt.value <= before
  }

  // ---- Runs ----

  function Run(t: Accounts, steps: seq<Step>): Accounts
    decreases |steps|
  {
    if steps == [] then t else Run(Apply(t, steps[0]), steps[1..])
  }

  /** An insert takes an id that never was in use. */
  ghost predicate PossibleRun(t: Accounts, used: set<int>, steps: seq<Step>)
    decreases |steps|
  {
    steps == [] ||
    ((steps[0].Create? ==> steps[0].id !in used)
     && PossibleRun(Apply(t, steps[0]), used + if steps[0].Create? then {steps[0].id} else {}, steps[1..]))
  }

  // ---- Deleted accounts ----

  predicate DatesTogether(a: Account) {
    a.deletedAt.Some? <==> a.purgeAt.Some?
  }

  /** A deletion and its purge date come and go together, over every run. */
  lemma {:induction false} RunKeepsDates(t: Accounts, steps: seq<Step>)
    requires forall id | id in t :: DatesTogether(t[id])
    ensures forall id | id in Run(t, steps) :: DatesTogether(Run(t, steps)[id])
    decreases |steps|
  {
    if steps != [] {
      RunKeepsDates(Apply(t, steps[0]), steps[1..]);
    }
  }

  predicate DeletedIsInactive(a: Account) {
    a.deletedAt.Some? ==> !a.active
  }

  /** The operator's switch turns on an account that is being deleted. */
  predicate ActivatesDeleted(t: Accounts, s: Step) {
    s.SetActive? && s.value && s.id in t && t[s.id].deletedAt.Some?
  }

  ghost predicate Sound(t: Accounts) {
    forall id | id in t :: DeletedIsInactive(t[id])
  }

  /** A step keeps deleted accounts inactive exactly when it is not that one. */
  lemma StepKeepsSoundIff(t: Accounts, s: Step)
    requires Sound(t)
    ensures Sound(Apply(t, s)) <==> !ActivatesDeleted(t, s)
  {
    if ActivatesDeleted(t, s) {
      assert Apply(t, s)[s.id] == t[s.id].(active := true);
    }
  }

  /** At every moment of the run, the last included. */
  ghost predicate AlwaysSound(t: Accounts, steps: seq<Step>)
    decreases |steps|
  {
    Sound(t) && (steps == [] || AlwaysSound(Apply(t, steps[0]), steps[1..]))
  }

  predicate NeverActivatesDeleted(t: Accounts, steps: seq<Step>)
    decreases |steps|
  {
    steps == [] || (!ActivatesDeleted(t, steps[0]) && NeverActivatesDeleted(Apply(t, steps[0]), steps[1..]))
  }

  /** Over a whole run a deleted account is inactive at every moment exactly when the operator's
      switch never turns one on. */
  lemma {:induction false} RunIsSoundIff(t: Accounts, steps: seq<Step>)
    requires Sound(t)
    ensures AlwaysSound(t, steps) <==> NeverActivatesDeleted(t, steps)
    decreases |steps|
  {
    if steps != [] {
      StepKeepsSoundIff(t, steps[0]);
      if Sound(Apply(t, steps[0])) {
        RunIsSoundIff(Apply(t, steps[0]), steps[1..]);
      }
    }
  }

  /** The switch reads, other statements land, and it writes the opposite: it turns on an account
      that is being deleted exactly when it read the account inactive and a deletion is under way
      at the write. */
  lemma SwitchActivatesDeletedIff(t: Accounts, steps: seq<Step>, id: int)
    requires id in t && id in Run(t, steps)
    ensures var now := Run(t, steps);
            (ActivatesDeleted(now, SetActive(id, !t[id].active)) <==> !t[id].active && now[id].deletedAt.Some?)
            && (ActivatesDeleted(now, SetActive(id, !t[id].active)) ==>
                  !DeletedIsInactive(Apply(now, SetActive(id, !t[id].active))[id]))
  {
  }

  /** An owner asks for deletion and the operator uses the switch: active, and still to be
      purged. */
  lemma SwitchActivatesADeletedAccount(a: Account, owner: int, now: int, grace: int)
    requires a.active && a.deletedAt.None?
    ensures var deleted := DeletionRequested(a, owner, now, grace);
            var t := map[1 := deleted];
            && DeletedIsInactive(deleted)
            && Apply(t, SetActive(1, !t[1].active)) == map[1 := deleted.(active := true)]
            && deleted.purgeAt == Some(now + grace) && !Sound(Apply(t, SetActive(1, !t[1].active)))
  {
    var t := map[1 := DeletionRequested(a, owner, now, grace)];
    assert 1 in Apply(t, SetActive(1, true));
  }

  /** The account is inactive, or gone, at every moment of the run. */
  predicate NeverActive(t: Accounts, steps: seq<Step>, id: int)
    decreases |steps|
  {
    (id in t ==> !t[id].active) && (steps == [] || NeverActive(Apply(t, steps[0]), steps[1..], id))
  }

  /** The switch turns the account on while it is there. */
  predicate SwitchedOn(t: Accounts, steps: seq<Step>, id: int)
    decreases |steps|
  {
    steps != [] && ((id in t && steps[0] == SetActive(id, true)) || SwitchedOn(Apply(t, steps[0]), steps[1..], id))
  }

  /** Until it is cancelled a deletion stays, and only the abandoned-setup claim moves its dates;
      a repeated request does not. The account is never active, unless the switch turns it on. */
  lemma {:induction false} DeletionStands(t: Accounts, used: set<int>, steps: seq<Step>, id: int)
    requires PossibleRun(t, used, steps) && id in t && id in used && t[id].deletedAt.Some?
    requires forall i | 0 <= i < |steps| :: steps[i] != CancelDeletion(id)
    ensures id in Run(t, steps) ==> Run(t, steps)[id].deletedAt.Some?
    ensures id in Run(t, steps) && (forall i | 0 <= i < |steps| :: !(steps[i].ClaimAbandoned? && steps[i].id == id)) ==>
              Run(t, steps)[id].purgeAt == t[id].purgeAt && Run(t, steps)[id].deletedAt == t[id].deletedAt
    ensures !t[id].active ==> (NeverActive(t, steps, id) <==> !SwitchedOn(t, steps, id))
    decreases |steps|
  {
    if steps != [] {
      var t1 := Apply(t, steps[0]);
      var used1 := used + if steps[0].Create? then {steps[0].id} else {};
      assert steps[0].Create? ==> steps[0].id != id;
      assert forall i | 0 <= i < |steps[1..]| :: steps[1..][i] == steps[i + 1];
      if id in t1 {
        DeletionStands(t1, used1, steps[1..], id);
        if steps[0] == SetActive(id, true) {
          assert t1[id].active;
        }
      } else {
        PurgedStaysGone(t1, used1, steps[1..], id);
      }
    }
  }

  lemma {:induction false} PurgedStaysGone(t: Accounts, used: set<int>, steps: seq<Step>, id: int)
    requires PossibleRun(t, used, steps) && id !in t && id in used
    ensures id !in Run(t, steps) && NeverActive(t, steps, id) && !SwitchedOn(t, steps, id)
    decreases |steps|
  {
    if steps != [] {
      PurgedStaysGone(Apply(t, steps[0]), used + if steps[0].Create? then {steps[0].id} else {}, steps[1..], id);
    }
  }

  /** The purge date of a deleted account moves exactly when the deletion is cancelled or an
      abandoned-setup claim takes the account at another time. */
  lemma PurgeDateMovesIff(a: Account, s: Step)
    requires DatesTogether(a) && a.deletedAt.Some?
    ensures Change(a, s).purgeAt != a.purgeAt <==>
            s.CancelDeletion? || (s.ClaimAbandoned? && Abandoned(a, s.before) && Some(s.now) != a.purgeAt)
  {
  }

  // ---- Active accounts ----

  predicate Free(a: Account) {
    a.suspendedAt.None? && a.deletedAt.None?
  }

  /** What the two flows mean together: active when neither holds. */
  predicate ActiveIffFree(a: Account) {
    a.active <==> Free(a)
  }

  /** Cancelling the deletion of a suspended account, or a switch to the wrong side. */
  predicate Breaks(a: Account, s: Step) {
    || (s.CancelDeletion? && a.deletedAt.Some? && a.suspendedAt.Some?)
    || (s.SetActive? && s.value != Free(a))
  }

  /** Every step keeps it but exactly those two. */
  lemma StepKeepsActiveIff(a: Account, s: Step)
    requires ActiveIffFree(a)
    ensures ActiveIffFree(Change(a, s)) <==> !Breaks(a, s)
  {
  }

  ghost predicate AllActiveIffFree(t: Accounts) {
    forall id | id in t :: ActiveIffFree(t[id])
  }

  ghost predicate AlwaysActiveIffFree(t: Accounts, steps: seq<Step>)
    decreases |steps|
  {
    AllActiveIffFree(t) && (steps == [] || AlwaysActiveIffFree(Apply(t, steps[0]), steps[1..]))
  }

  predicate NeverBreaks(t: Accounts, steps: seq<Step>)
    decreases |steps|
  {
    steps == [] ||
    (!(steps[0].id in t && Breaks(t[steps[0].id], steps[0])) && NeverBreaks(Apply(t, steps[0]), steps[1..]))
  }

  lemma TableKeepsActiveIff(t: Accounts, s: Step)
    requires AllActiveIffFree(t)
    ensures AllActiveIffFree(Apply(t, s)) <==> !(s.id in t && Breaks(t[s.id], s))
  {
    if s.id in t {
      StepKeepsActiveIff(t[s.id], s);
      assert s.CancelDeletion? || s.SetActive? ==> Apply(t, s)[s.id] == Change(t[s.id], s);
    }
  }

  /** Over a whole run it holds at every moment exactly when no step of the run is one of the
      two. */
  lemma {:induction false} RunKeepsActiveIffFree(t: Accounts, steps: seq<Step>)
    requires AllActiveIffFree(t)
    ensures AlwaysActiveIffFree(t, steps) <==> NeverBreaks(t, steps)
    decreases |steps|
  {
    if steps != [] {
      TableKeepsActiveIff(t, steps[0]);
      if AllActiveIffFree(Apply(t, steps[0])) {
        RunKeepsActiveIffFree(Apply(t, steps[0]), steps[1..]);
      }
    }
  }

  /** The owner of a suspended account asks for deletion and takes it back: the account is
      active again and still marked suspended. */
  lemma OwnerLiftsSuspension(a: Account, operator: int, owner: int, t1: int, t2: int, grace: int)
    requires a.active && ActiveIffFree(a)
    ensures var b := DeletionCancelled(DeletionRequested(Suspended(a, operator, t1), owner, t2, grace));
            b.active && b.suspendedAt == Some(t1) && !ActiveIffFree(b)
  {
  }

  // ---- The sweeps ----

  /** A finished set-up is never claimed, however stale the listing, unless it is put back. */
  lemma {:induction false} FinishedSetupIsSafe(t: Accounts, used: set<int>, steps: seq<Step>, id: int)
    requires PossibleRun(t, used, steps) && id in t && id in used && t[id].pendingSince.None? && t[id].deletedAt.None?
    requires forall i | 0 <= i < |steps| ::
               steps[i].id == id ==> !steps[i].SetPending? && !steps[i].RequestDeletion? && !steps[i].Purge?
    ensures id in Run(t, steps) && Run(t, steps)[id].deletedAt.None? && Run(t, steps)[id].pendingSince.None?
    decreases |steps|
  {
    if steps != [] {
      assert steps[0].Create? ==> steps[0].id != id;
      assert forall i | 0 <= i < |steps[1..]| :: steps[1..][i] == steps[i + 1];
      FinishedSetupIsSafe(Apply(t, steps[0]), used + if steps[0].Create? then {steps[0].id} else {}, steps[1..], id);
    }
  }

  /** Whether, after these steps, the last word on a deletion is that it stands. */
  function StillWanted(steps: seq<Step>, id: int, wanted: bool): bool
    decreases |steps|
  {
    if steps == [] then wanted
    else StillWanted(steps[1..], id,
                     if steps[0].CancelDeletion? && steps[0].id == id then false
                     else if steps[0].RequestDeletion? && steps[0].id == id then true
                     else wanted)
  }

  lemma {:induction false} LastWordDecides(t: Accounts, used: set<int>, steps: seq<Step>, id: int, wanted: bool)
    requires PossibleRun(t, used, steps) && id in t && id in used && (t[id].deletedAt.Some? <==> wanted)
    requires forall i | 0 <= i < |steps| :: steps[i].id == id ==> !steps[i].Purge? && !steps[i].ClaimAbandoned?
    ensures id in Run(t, steps)
    ensures Run(t, steps)[id].deletedAt.None? <==> !StillWanted(steps, id, wanted)
    decreases |steps|
  {
    if steps != [] {
      var s := steps[0];
      assert s.Create? ==> s.id != id;
      assert forall i | 0 <= i < |steps[1..]| :: steps[1..][i] == steps[i + 1];
      LastWordDecides(
        Apply(t, s), used + if s.Create? then {s.id} else {}, steps[1..], id,
        if s.CancelDeletion? && s.id == id then false else if s.RequestDeletion? && s.id == id then true else wanted);
    }
  }

  /** The purge sweep lists the due accounts once and then purges each without looking again:
      what it removes is a live account exactly when the owner's last word since the listing
      was to cancel. */
  lemma PurgeTakesALiveAccountIff(t: Accounts, used: set<int>, before: int, steps: seq<Step>, id: int)
    requires PossibleRun(t, used, steps) && id in DueForPurge(t, before) && id in used
    requires forall i | 0 <= i < |steps| :: steps[i].id == id ==> !steps[i].Purge? && !steps[i].ClaimAbandoned?
    ensures id in Run(t, steps) && id !in Apply(Run(t, steps), Purge(id))
    ensures Run(t, steps)[id].deletedAt.None? <==> !StillWanted(steps, id, true)
  {
    LastWordDecides(t, used, steps, id, true);
  }

  /** The dates of a listed account: due until the first cancel, and from then on never, since
      a new request sets a date in the future. */
  lemma {:induction false} CancelEndsDue(t: Accounts, used: set<int>, before: int, steps: seq<Step>, id: int)
    requires PossibleRun(t, used, steps) && id in t && id in used
    requires forall i | 0 <= i < |steps| && steps[i].id == id :: !steps[i].Purge? && !steps[i].ClaimAbandoned?
    requires forall i | 0 <= i < |steps| && steps[i].id == id && steps[i].RequestDeletion? ::
               steps[i].now >= before && steps[i].grace > 0
    ensures id in Run(t, steps)
    ensures id in DueForPurge(Run(t, steps), before) <==>
            id in DueForPurge(t, before) && forall i | 0 <= i < |steps| :: steps[i] != CancelDeletion(id)
    decreases |steps|
  {
    if steps != [] {
      var s := steps[0];
      assert s.Create? ==> s.id != id;
      assert forall i | 0 <= i < |steps[1..]| :: steps[1..][i] == steps[i + 1];
      assert (forall i | 0 <= i < |steps| :: steps[i] != CancelDeletion(id)) <==>
             s != CancelDeletion(id) && forall i | 0 <= i < |steps[1..]| :: steps[1..][i] != CancelDeletion(id);
      CancelEndsDue(Apply(t, s), used + if s.Create? then {s.id} else {}, before, steps[1..], id);
    }
  }

  /** What the sweep removes is still due exactly when no cancel came after the listing: an
      account that was cancelled and asked for again loses its new grace period. */
  lemma PurgeTakesADueAccountIff(t: Accounts, used: set<int>, before: int, steps: seq<Step>, id: int)
    requires PossibleRun(t, used, steps) && id in DueForPurge(t, before) && id in used
    requires forall i | 0 <= i < |steps| && steps[i].id == id :: !steps[i].Purge? && !steps[i].ClaimAbandoned?
    requires forall i | 0 <= i < |steps| && steps[i].id == id && steps[i].RequestDeletion? ::
               steps[i].now >= before && steps[i].grace > 0
    ensures id in Run(t, steps) && id !in Apply(Run(t, steps), Purge(id))
    ensures id in DueForPurge(Run(t, steps), before) <==> forall i | 0 <= i < |steps| :: steps[i] != CancelDeletion(id)
  {
    CancelEndsDue(t, used, before, steps, id);
  }

  // ---- Names: a look, and later a write ----

  /** What a request was told is free: a clean name for a new account, or for a pending one. */
  datatype Told = ForNew(name: string) | ForPending(name: string, id: int)

  function Except(told: Told): Option<int> {
    if told.ForPending? then Some(told.id) else None
  }

  /** The table, and what each request in flight remembers. */
  datatype World = World(rows: Accounts, told: map<nat, Told>)

  datatype Move =
    | Look(k: nat, asks: Told)
    | Write(k: nat, id: int)
    | Other(s: Step)

  /** A look that finds the name taken raises, so only the others go on to a write. */
  predicate Possible(w: World, m: Move) {
    match m
    case Look(k, asks) => k !in w.told && !NameTaken(w.rows, asks.name, Except(asks))
    case Write(k, id) => k in w.told && if w.told[k].ForNew? then id !in w.rows else id == w.told[k].id
    case Other(s) => !s.Create? && !s.Complete?
  }

  function Moved(w: World, m: Move): World
    requires Possible(w, m)
  {
    match m
    case Look(k, asks) => w.(told := w.told[k := asks])
    case Write(k, id) =>
      World(Apply(w.rows, if w.told[k].ForNew? then Create(id, w.told[k].name) else Complete(id, w.told[k].name)),
            w.told - {k})
    case Other(s) => w.(rows := Apply(w.rows, s))
  }

  ghost predicate Trace(ws: seq<World>, ms: seq<Move>) {
    && |ws| == |ms| + 1
    && forall n | 0 <= n < |ms| :: Possible(ws[n], ms[n]) && ws[n + 1] == Moved(ws[n], ms[n])
  }

  predicate Distinct(t: Accounts) {
    forall i, j | i in t && j in t && i != j :: !SameName(t[i].name, t[j].name)
  }

  predicate Holds(t: Accounts, id: int, name: string) {
    id in t && SameName(t[id].name, name)
  }

  /** The move writes a name, and to this account. */
  predicate Names(w: World, m: Move, id: int)
    requires Possible(w, m)
  {
    m.Write? && m.id == id && (w.told[m.k].ForNew? || (id in w.rows && w.rows[id].pendingSince.Some?))
  }

  predicate Takes(w: World, m: Move, id: int, name: string)
    requires Possible(w, m)
  {
    Names(w, m, id) && SameName(w.told[m.k].name, name)
  }

  /** The account goes, or gets another name. */
  predicate Releases(w: World, m: Move, id: int, name: string)
    requires Possible(w, m)
  {
    m == Other(Purge(id)) || (Names(w, m, id) && !SameName(w.told[m.k].name, name))
  }

  lemma HoldsAfter(w: World, m: Move, id: int, name: string)
    requires Possible(w, m)
    ensures Holds(Moved(w, m).rows, id, name) <==>
            Takes(w, m, id, name) || (Holds(w.rows, id, name) && !Releases(w, m, id, name))
  {
  }

  /** Between two moves some write gave the account this name, and nothing took it away. */
  ghost predicate TakenMeanwhile(ws: seq<World>, ms: seq<Move>, a: nat, b: nat, id: int, name: string)
    requires Trace(ws, ms) && a < b <= |ms|
  {
    exists i | a < i < b :: TakenAt(ws, ms, i, b, id, name)
  }

  ghost predicate TakenAt(ws: seq<World>, ms: seq<Move>, i: nat, b: nat, id: int, name: string)
    requires Trace(ws, ms) && i < b <= |ms|
  {
    Takes(ws[i], ms[i], id, name) && forall j | i < j < b :: !Releases(ws[j], ms[j], id, name)
  }

  lemma {:induction false} HeldIffTaken(ws: seq<World>, ms: seq<Move>, a: nat, b: nat, id: int, name: string)
    requires Trace(ws, ms) && a < b <= |ms| && !Holds(ws[a + 1].rows, id, name)
    ensures Holds(ws[b].rows, id, name) <==> TakenMeanwhile(ws, ms, a, b, id, name)
    decreases b - a
  {
    if a + 1 < b {
      var n := b - 1;
      HeldIffTaken(ws, ms, a, n, id, name);
      HoldsAfter(ws[n], ms[n], id, name);
      if Takes(ws[n], ms[n], id, name) {
        assert TakenAt(ws, ms, n, b, id, name);
      }
      forall i | a < i < n ensures TakenAt(ws, ms, i, b, id, name) <==>
                                    TakenAt(ws, ms, i, n, id, name) && !Releases(ws[n], ms[n], id, name) {
      }
    }
  }

  lemma DistinctAfterWrite(w: World, m: Move)
    requires Possible(w, m) && m.Write? && Names(w, m, m.id) && Distinct(w.rows)
    ensures Distinct(Moved(w, m).rows) <==> forall o | o != m.id :: !Holds(w.rows, o, w.told[m.k].name)
  {
    var t' := Moved(w, m).rows;
    assert t'[m.id].name == w.told[m.k].name;
    assert forall o | o in w.rows && o != m.id :: o in t' && t'[o] == w.rows[o];
    if forall o | o != m.id :: !Holds(w.rows, o, w.told[m.k].name) {
      forall i, j | i in t' && j in t' && i != j ensures !SameName(t'[i].name, t'[j].name) {
        assert i != m.id ==> !Holds(w.rows, i, w.told[m.k].name);
        assert j != m.id ==> !Holds(w.rows, j, w.told[m.k].name);
      }
    } else {
      var o :| o != m.id && Holds(w.rows, o, w.told[m.k].name);
      assert SameName(t'[o].name, t'[m.id].name);
    }
  }

  /** A write that was told at move a, and not since, that its name is free, keeps names
      distinct exactly when no other account took that name in between and has it still. */
  lemma NameWriteIsSafeIff(ws: seq<World>, ms: seq<Move>, a: nat, b: nat)
    requires Trace(ws, ms) && a < b < |ms| && ms[a].Look? && ms[b].Write? && ms[a].k == ms[b].k
    requires ws[b].told[ms[b].k] == ms[a].asks
    requires Names(ws[b], ms[b], ms[b].id) && Distinct(ws[b].rows)
    ensures Distinct(ws[b + 1].rows) <==>
            forall o | o != ms[b].id :: !TakenMeanwhile(ws, ms, a, b, o, ms[a].asks.name)
  {
    var name, id := ms[a].asks.name, ms[b].id;
    DistinctAfterWrite(ws[b], ms[b]);
    forall o | o != id
      ensures Holds(ws[b].rows, o, name) <==> TakenMeanwhile(ws, ms, a, b, o, name)
    {
      assert Possible(ws[a], ms[a]) && ws[a + 1] == Moved(ws[a], ms[a]);
      LookedFree(ws, ms, a, b, o);
      HeldIffTaken(ws, ms, a, b, o, name);
    }
  }

  /** At the look no account but the one to be named has the name. A new account's id is not
      in use at the write. */
  lemma LookedFree(ws: seq<World>, ms: seq<Move>, a: nat, b: nat, o: int)
    requires Trace(ws, ms) && a < b < |ms| && ms[a].Look? && ms[b].Write? && ms[a].k == ms[b].k
    requires ws[b].told[ms[b].k] == ms[a].asks && o != ms[b].id
    ensures !Holds(ws[a + 1].rows, o, ms[a].asks.name)
  {
    assert Possible(ws[a], ms[a]) && ws[a + 1] == Moved(ws[a], ms[a]);
    assert Possible(ws[b], ms[b]);
    assert Some(o) != Except(ms[a].asks);
  }

  /** Somebody took the name between this write's look and the write. */
  ghost predicate Raced(ws: seq<World>, ms: seq<Move>, a: nat, b: nat)
    requires Trace(ws, ms) && a < b < |ms| && ms[a].Look? && ms[b].Write?
  {
    Names(ws[b], ms[b], ms[b].id) &&
    exists o :: o != ms[b].id && TakenMeanwhile(ws, ms, a, b, o, ms[a].asks.name)
  }

  /** The look that a request's memory comes from. */
  ghost predicate ToldBy(ws: seq<World>, ms: seq<Move>, a: nat, n: nat, k: nat)
    requires Trace(ws, ms) && a < n <= |ms|
  {
    ms[a].Look? && ms[a].k == k && k in ws[n].told && ws[n].told[k] == ms[a].asks
    && forall i | a < i <= n :: k in ws[i].told && ws[i].told[k] == ms[a].asks
  }

  lemma {:induction false} EveryMemoryHasALook(ws: seq<World>, ms: seq<Move>, n: nat, k: nat) returns (a: nat)
    requires Trace(ws, ms) && ws[0].told == map[] && n <= |ms| && k in ws[n].told
    ensures a < n && ToldBy(ws, ms, a, n, k)
    decreases n
  {
    assert Possible(ws[n - 1], ms[n - 1]) && ws[n] == Moved(ws[n - 1], ms[n - 1]);
    if ms[n - 1].Look? && ms[n - 1].k == k {
      a := n - 1;
    } else {
      a := EveryMemoryHasALook(ws, ms, n - 1, k);
    }
  }

  ghost predicate NoRace(ws: seq<World>, ms: seq<Move>)
    requires Trace(ws, ms)
  {
    forall a: nat, b: nat | a < b < |ms| && ms[a].Look? && ms[b].Write? && ToldBy(ws, ms, a, b, ms[b].k) ::
        !Raced(ws, ms, a, b)
  }

  lemma StepKeepsNames(ws: seq<World>, ms: seq<Move>, n: nat)
    requires Trace(ws, ms) && ws[0].told == map[] && n < |ms| && Distinct(ws[n].rows) && NoRace(ws, ms)
    ensures Distinct(ws[n + 1].rows)
  {
    var m := ms[n];
    assert Possible(ws[n], m) && ws[n + 1] == Moved(ws[n], m);
    if m.Write? && Names(ws[n], m, m.id) {
      var a := EveryMemoryHasALook(ws, ms, n, m.k);
      assert !Raced(ws, ms, a, n);
      NameWriteIsSafeIff(ws, ms, a, n);
    }
  }

  lemma {:induction false} NoRaceKeepsNames(ws: seq<World>, ms: seq<Move>, n: nat)
    requires Trace(ws, ms) && ws[0].told == map[] && Distinct(ws[0].rows) && n <= |ms| && NoRace(ws, ms)
    ensures Distinct(ws[n].rows)
  {
    if n > 0 {
      NoRaceKeepsNames(ws, ms, n - 1);
      StepKeepsNames(ws, ms, n - 1);
    }
  }

  /** Over a whole run no two accounts ever share a name, up to case, exactly when no write
      was raced for its name between its look and itself. */
  lemma NamesStayDistinctIff(ws: seq<World>, ms: seq<Move>)
    requires Trace(ws, ms) && ws[0].told == map[] && Distinct(ws[0].rows)
    ensures (forall n | 0 <= n < |ws| :: Distinct(ws[n].rows)) <==> NoRace(ws, ms)
  {
    if NoRace(ws, ms) {
      forall n | 0 <= n < |ws| ensures Distinct(ws[n].rows) {
        NoRaceKeepsNames(ws, ms, n);
      }
    }
    if forall n | 0 <= n < |ws| :: Distinct(ws[n].rows) {
      forall a: nat, b: nat | a < b < |ms| && ms[a].Look? && ms[b].Write? && ToldBy(ws, ms, a, b, ms[b].k)
        ensures !Raced(ws, ms, a, b)
      {
        assert Distinct(ws[b].rows) && Distinct(ws[b + 1].rows);
        if Names(ws[b], ms[b], ms[b].id) {
          NameWriteIsSafeIff(ws, ms, a, b);
        }
      }
    }
  }

  /** Two sign-ups for one name: both look, both are told it is free, both write. */
  lemma TwoSignUpsShareAName()
    ensures var ms := [Look(0, ForNew("Acme")), Look(1, ForNew("ACME")), Write(0, 1), Write(1, 2)];
            exists ws: seq<World> :: Trace(ws, ms) && ws[0] == World(map[], map[]) && !Distinct(ws[4].rows)
  {
    var ms := [Look(0, ForNew("Acme")), Look(1, ForNew("ACME")), Write(0, 1), Write(1, 2)];
    var w0 := World(map[], map[]);
    var w1 := Moved(w0, ms[0]);
    var w2 := Moved(w1, ms[1]);
    var w3 := Moved(w2, ms[2]);
    var w4 := Moved(w3, ms[3]);
    var ws := [w0, w1, w2, w3, w4];
    assert AlertQuery.Lower("Acme") == AlertQuery.Lower("ACME");
    assert SameName(w4.rows[1].name, w4.rows[2].name);
    assert Trace(ws, ms);
  }

  // ---- Each statement, field by field ----

  /** A suspension takes an account that is not suspended, and keeps the first one; lifting one
      needs a suspension and no deletion. */
  lemma SuspensionsInFields(a: Account, operator: int, now: int)
    ensures a.suspendedAt == None ==>
              Suspended(a, operator, now) ==
              a.(active := false, suspendedAt := Some(now), suspendedBy := Some(operator))
    ensures a.suspendedAt != None ==> Suspended(a, operator, now) == a
    ensures a.suspendedAt != None && a.deletedAt == None ==>
              Unsuspended(a) == a.(active := true, suspendedAt := None, suspendedBy := None)
    ensures a.suspendedAt == None || a.deletedAt != None ==> Unsuspended(a) == a
  {
  }

  /** A deletion is due its grace period from now on; while one is under way another changes
      nothing. A cancel takes back all that a request wrote and turns the account on. */
  lemma DeletionsInFields(a: Account, owner: int, now: int, grace: int)
    ensures a.deletedAt == None ==>
              DeletionRequested(a, owner, now, grace) ==
              a.(active := false, deletedAt := Some(now), requestedBy := Some(owner), purgeAt := Some(now + grace))
    ensures a.deletedAt != None ==> DeletionRequested(a, owner, now, grace) == a
    ensures a.deletedAt != None ==>
              DeletionCancelled(a) == a.(active := true, deletedAt := None, requestedBy := None, purgeAt := None)
    ensures a.deletedAt == None ==> DeletionCancelled(a) == a
  {
  }

  /** A claim takes an account whose set-up has been pending since the cutoff or longer, for purge
      at once; finishing takes a pending one and opens its gate. */
  lemma SetupsInFields(a: Account, before: int, now: int, name: string)
    ensures a.pendingSince != None && a.pendingSince.value <= before ==>
              Claimed(a, before, now) == a.(active := false, deletedAt := Some(now), purgeAt := Some(now))
    ensures a.pendingSince == None || a.pendingSince.value > before ==> Claimed(a, before, now) == a
    ensures a.pendingSince != None ==> Completed(a, name) == a.(name := name, pendingSince := None)
    ensures a.pendingSince == None ==> Completed(a, name) == a
  {
  }

  /** Each step is its change of one account, and touches no other. */
  lemma StepsInFields(t: Accounts, s: Step, other: int)
    requires other in t && other != s.id
    ensures other in Apply(t, s) && Apply(t, s)[other] == t[other]
    ensures s.Purge? ==> Apply(t, s) == t - {s.id}
    ensures s.Create? ==>
              Apply(t, s) == t[s.id := Account(s.name, true, None, None, None, None, None, None)]
    ensures !s.Create? && s.id !in t ==> Apply(t, s) == t
    ensures s.id in t ==>
              match s
              case SetPending(_, now) => Apply(t, s) == t[s.id := t[s.id].(pendingSince := Some(now))]
              case Complete(_, name) => Apply(t, s) == t[s.id := Completed(t[s.id], name)]
              case ClaimAbandoned(_, before, now) => Apply(t, s) == t[s.id := Claimed(t[s.id], before, now)]
              case Suspend(_, operator, now) => Apply(t, s) == t[s.id := Suspended(t[s.id], operator, now)]
              case Unsuspend(_) => Apply(t, s) == t[s.id := Unsuspended(t[s.id])]
              case RequestDeletion(_, owner, now, grace) =>
                Apply(t, s) == t[s.id := DeletionRequested(t[s.id], owner, now, grace)]
              case CancelDeletion(_) => Apply(t, s) == t[s.id := DeletionCancelled(t[s.id])]
              case SetActive(_, value) => Apply(t, s) == t[s.id := t[s.id].(active := value)]
              case _ => true
  {
  }

  /** Due are the deleted accounts whose purge date is at the cutoff or earlier. */
  lemma DueIff(t: Accounts, before: int, id: int)
    ensures id in DueForPurge(t, before) <==>
            id in t && t[id].deletedAt != None && t[id].purgeAt != None && before >= t[id].purgeAt.value
  {
  }

  predicate SameLetters(x: string, y: string) {
    |x| == |y| && forall i | 0 <= i < |x| ::
      var a, b := x[i] as int, y[i] as int;
      a == b || (65 <= a <= 90 && b == a + 32) || (65 <= b <= 90 && a == b + 32)
  }

  /** A name is taken when another account's has the same letters in any case. */
  lemma TakenInFields(t: Accounts, name: string, except: Option<int>)
    ensures NameTaken(t, name, except) <==>
            exists id | id in t :: except != Some(id) && SameLetters(t[id].name, name)
  {
    forall id | id in t ensures SameName(t[id].name, name) <==> SameLetters(t[id].name, name) {
      SameNameIs(t[id].name, name);
    }
  }

  lemma SameNameIs(x: string, y: string)
    ensures SameName(x, y) <==> SameLetters(x, y)
  {
    AlertQuery.LowerInChars(x);
    AlertQuery.LowerInChars(y);
    if SameName(x, y) {
      assert forall i | 0 <= i < |x| :: AlertQuery.Lower(x)[i] == AlertQuery.Lower(y)[i];
    }
  }

  /** A look is remembered; a write inserts a new account, or finishes the pending one, under the
      name that was told, and is forgotten. */
  lemma MovesInFields(w: World, m: Move)
    requires Possible(w, m)
    ensures var w' := Moved(w, m);
            match m
            case Look(k, asks) =>
              && !NameTaken(w.rows, asks.name, if asks.ForNew? then None else Some(asks.id))
              && w' == w.(told := w.told[k := asks])
            case Write(k, id) =>
              && k in w.told && w'.told == w.told - {k}
              && (w.told[k].ForNew? ==> id !in w.rows && w'.rows == Apply(w.rows, Create(id, w.told[k].name)))
              && (w.told[k].ForPending? ==>
                    id == w.told[k].id && w'.rows == Apply(w.rows, Complete(id, w.told[k].name)))
            case Other(s) => w' == w.(rows := Apply(w.rows, s))
  {
  }

  /** A look goes on to a write exactly when no account has the name; for a pending account, no
      other one. */
  lemma LooksIff(w: World, k: nat, name: string, id: int)
    ensures Possible(w, Look(k, ForNew(name))) <==>
            k !in w.told && forall i | i in w.rows :: !SameLetters(w.rows[i].name, name)
    ensures Possible(w, Look(k, ForPending(name, id))) <==>
            k !in w.told && forall i | i in w.rows && i != id :: !SameLetters(w.rows[i].name, name)
  {
    TakenInFields(w.rows, name, None);
    TakenInFields(w.rows, name, Some(id));
  }
}
