/** Action proposals and the requests that approve, edit, decline and undo them
    (adapters/storage/ai_actions.py, capabilities/ai/actions.py).

    A table step is one conditional UPDATE. A request reads the row first and acts on what
    it read, so other requests may run between any two of its steps. */
module Proposals {
  import opened Common

  datatype Status = Pending | Executing | Consumed | Failed | Declined | Undoing | Undone

  /** The stored result: nothing, the executor's change-set, or that with the undo's outcome. */
  datatype Result = Nothing | Did(manifest: string) | DidAndUndid(manifest: string, undo: string)

  datatype Proposal = Proposal(
    account: int, user: int, status: Status, staged: string, summary: string, result: Result,
    createdAt: int, expiresAt: int, undoneBy: Option<int>)

  type Table = map<int, Proposal>

  predicate Owned(t: Table, id: int, account: int, user: int) {
    id in t && t[id].account == account && t[id].user == user
  }

  predicate InAccount(t: Table, id: int, account: int) {
    id in t && t[id].account == account
  }

  // ---- What each statement does to the table ----

  predicate Editable(t: Table, id: int, account: int, user: int) {
    Owned(t, id, account, user) && t[id].status == Pending
  }

  predicate Claimable(t: Table, id: int, account: int, user: int, now: int) {
    Editable(t, id, account, user) && t[id].expiresAt > now
  }

  function EditedTable(t: Table, id: int, account: int, user: int, staged: string, summary: string): Table {
    if Editable(t, id, account, user)
    then t[id := t[id].(staged := staged, summary := if summary == "" then t[id].summary else summary)]
    else t
  }

  function ClaimedTable(t: Table, id: int, account: int, user: int, now: int): Table {
    if Claimable(t, id, account, user, now) then t[id := t[id].(status := Executing)] else t
  }

  /** The one transition that does not look at the status it replaces. */
  function FinalizedTable(t: Table, id: int, account: int, user: int, status: Status, result: Result): Table {
    if Owned(t, id, account, user) then t[id := t[id].(status := status, result := result)] else t
  }

  function DeclinedTable(t: Table, id: int, account: int, user: int): Table {
    if Editable(t, id, account, user) then t[id := t[id].(status := Declined)] else t
  }

  predicate Undoable(t: Table, id: int, account: int) {
    InAccount(t, id, account) && t[id].status == Consumed
  }

  function UndoClaimedTable(t: Table, id: int, account: int): Table {
    if Undoable(t, id, account) then t[id := t[id].(status := Undoing)] else t
  }

  function UndoFinalizedTable(t: Table, id: int, account: int, undoneBy: int, result: Option<Result>): Table {
    if InAccount(t, id, account) && t[id].status == Undoing then
      t[id := if result.Some? then t[id].(status := Undone, undoneBy := Some(undoneBy), result := result.value)
              else t[id].(status := Consumed)]
    else t
  }

  function PrunedTable(t: Table, cutoff: int): Table {
    map id | id in t && t[id].createdAt >= cutoff :: t[id]
  }

  class ProposalTable {
    var rows: Table

    constructor ()
      ensures rows == map[]
    {
      rows := map[];
    }

    /** The id is a new uuid. */
    method Create(id: int, account: int, user: int, staged: string, summary: string, now: int, ttl: int)
      requires id !in rows
      modifies this
      ensures rows == old(rows)[id := Proposal(account, user, Pending, staged, summary, Nothing, now, now + ttl, None)]
    {
      rows := rows[id := Proposal(account, user, Pending, staged, summary, Nothing, now, now + ttl, None)];
    }

    method UpdateStagedPayload(id: int, account: int, user: int, staged: string, summary: string) returns (ok: bool)
      modifies this
      ensures ok <==> id in old(rows) && old(rows)[id].account == account && old(rows)[id].user == user
                      && old(rows)[id].status == Pending
      ensures rows == EditedTable(old(rows), id, account, user, staged, summary)
      ensures rows.Keys == old(rows).Keys && forall i | i in rows && !(ok && i == id) :: rows[i] == old(rows)[i]
      ensures ok ==> rows[id] == old(rows)[id].(staged := staged, summary := rows[id].summary)
      ensures ok ==> rows[id].summary == if summary != "" then summary else old(rows)[id].summary
    {
      ok := id in rows && rows[id].account == account && rows[id].user == user && rows[id].status == Pending;
      if ok {
        var row := rows[id].(staged := staged);
        if summary != "" {
          row := row.(summary := summary);
        }
        rows := rows[id := row];
      }
    }

    method Claim(id: int, account: int, user: int, now: int) returns (ok: bool)
      modifies this
      ensures ok <==> id in old(rows) && old(rows)[id].account == account && old(rows)[id].user == user
                      && old(rows)[id].status == Pending && now < old(rows)[id].expiresAt
      ensures rows == if ok then old(rows)[id := old(rows)[id].(status := Executing)] else old(rows)
      ensures rows == ClaimedTable(old(rows), id, account, user, now)
    {
      ok := id in rows && rows[id].account == account && rows[id].user == user
      && rows[id].status == Pending && rows[id].expiresAt > now;
      if ok {
        rows := rows[id := rows[id].(status := Executing)];
      }
    }

    method Finalize(id: int, account: int, user: int, status: Status, result: Result)
      modifies this
      ensures rows == FinalizedTable(old(rows), id, account, user, status, result)
      ensures rows == if id in old(rows) && old(rows)[id].account == account && old(rows)[id].user == user
                      then old(rows)[id := old(rows)[id].(status := status, result := result)] else old(rows)
    {
      if id in rows && rows[id].account == account && rows[id].user == user {
        rows := rows[id := rows[id].(status := status, result := result)];
      }
    }

    method Decline(id: int, account: int, user: int) returns (ok: bool)
      modifies this
      ensures ok <==> id in old(rows) && old(rows)[id].account == account && old(rows)[id].user == user
                      && old(rows)[id].status == Pending
      ensures rows == if ok then old(rows)[id := old(rows)[id].(status := Declined)] else old(rows)
      ensures rows == DeclinedTable(old(rows), id, account, user)
    {
      ok := id in rows && rows[id].account == account && rows[id].user == user && rows[id].status == Pending;
      if ok {
        rows := rows[id := rows[id].(status := Declined)];
      }
    }

    method ClaimUndo(id: int, account: int) returns (ok: bool)
      modifies this
      ensures ok <==> id in old(rows) && old(rows)[id].account == account && old(rows)[id].status == Consumed
      ensures rows == if ok then old(rows)[id := old(rows)[id].(status := Undoing)] else old(rows)
      ensures rows == UndoClaimedTable(old(rows), id, account)
    {
      ok := id in rows && rows[id].account == account && rows[id].status == Consumed;
      if ok {
        rows := rows[id := rows[id].(status := Undoing)];
      }
    }

    method FinalizeUndo(id: int, account: int, undoneBy: int, result: Option<Result>)
      modifies this
      ensures rows == UndoFinalizedTable(old(rows), id, account, undoneBy, result)
      ensures var closes := id in old(rows) && old(rows)[id].account == account && old(rows)[id].status == Undoing;
              && (!closes ==> rows == old(rows))
              && (closes && result.None? ==> rows == old(rows)[id := old(rows)[id].(status := Consumed)])
              && (closes && result.Some? ==>
                    rows == old(rows)[id := old(rows)[id].(status := Undone, undoneBy := Some(undoneBy),
                                                           result := result.value)])
    {
      if id in rows && rows[id].account == account && rows[id].status == Undoing {
        if result.Some? {
          rows := rows[id := rows[id].(status := Undone, undoneBy := Some(undoneBy), result := result.value)];
        } else {
          rows := rows[id := rows[id].(status := Consumed)];
        }
      }
    }

    method Prune(cutoff: int) returns (gone: nat)
      modifies this
      ensures rows == PrunedTable(old(rows), cutoff)
      ensures gone == |set id | id in old(rows) && old(rows)[id].createdAt < cutoff|
      ensures forall id :: id in rows <==> id in old(rows) && old(rows)[id].createdAt >= cutoff
      ensures forall id | id in rows :: rows[id] == old(rows)[id]
    {
      gone := |set id | id in rows && rows[id].createdAt < cutoff|;
      rows := map id | id in rows && rows[id].createdAt >= cutoff :: rows[id];
    }
  }

  // ---- Requests running beside each other ----

  /** Where a request is: what it read or was told, and what it does next. */
  datatype Worker =
    | Free
    | Approving(id: int, account: int, user: int, staged: string)          // next: claim
    | Running(id: int, account: int, user: int, staged: string)            // in the executor
    | Ran(id: int, account: int, user: int, did: Option<string>)           // next: finalize
    | Asking(id: int, account: int, user: int, manifest: string)           // next: claim the undo
    | Reverting(id: int, account: int, user: int, manifest: string)        // in the undo recipe
    | Reverted(id: int, account: int, user: int, manifest: string, undid: Option<string>) // next: finalize it

  /** Between its claim and its finalize a request holds the proposal. */
  predicate Holds(p: Worker) {
    p.Running? || p.Ran? || p.Reverting? || p.Reverted?
  }

  /** What happened to one proposal: how often its executor was entered, succeeded and was
      reversed, the rows in place at its claim, those its executor got, what that returned, and
      whether a request died while it held the proposal. */
  datatype Log = Log(
    entered: nat, executed: nat, reversed: nat,
    agreed: Option<string>, ranWith: Option<string>, manifest: Option<string>, lost: bool)

  const BLANK := Log(0, 0, 0, None, None, None, false)

  /** The table, a log of every proposal ever made, and the requests. */
  datatype World = World(rows: Table, logs: map<int, Log>, workers: seq<Worker>)

  function LogOf(w: World, id: int): Log {
    if id in w.logs then w.logs[id] else BLANK
  }

  datatype Step =
    | Propose(id: int, account: int, user: int, staged: string, now: int, expiresAt: int)
    | EditRows(id: int, account: int, user: int, staged: string)
    | Reject(id: int, account: int, user: int)
    | Sweep(cutoff: int)
    | OpenApproval(k: nat, id: int, account: int, user: int)
    | TryClaim(k: nat, now: int)
    | ExecutorEnds(k: nat, outcome: Option<string>)
    | Close(k: nat)
    | OpenUndo(k: nat, id: int, account: int, user: int)
    | TryClaimUndo(k: nat)
    | RecipeEnds(k: nat, outcome: Option<string>)
    | CloseUndo(k: nat)
    | Crash(k: nat)

  predicate OfWorker(s: Step) {
    !(s.Propose? || s.EditRows? || s.Reject? || s.Sweep?)
  }

  predicate Possible(w: World, s: Step) {
    && (OfWorker(s) ==> s.k < |w.workers|)
    && match s
       case Propose(id, _, _, _, _, _) => id !in w.logs
       case OpenApproval(k, id, account, user) => w.workers[k].Free? && Editable(w.rows, id, account, user)
       case TryClaim(k, _) => w.workers[k].Approving?
       case ExecutorEnds(k, _) => w.workers[k].Running?
       case Close(k) => w.workers[k].Ran?
       case OpenUndo(k, id, account, user) =>
         w.workers[k].Free? && Undoable(w.rows, id, account) && w.rows[id].result.Did?
       case TryClaimUndo(k) => w.workers[k].Asking?
       case RecipeEnds(k, _) => w.workers[k].Reverting?
       case CloseUndo(k) => w.workers[k].Reverted?
       case _ => true
  }

  /** The next state of worker k; only a step of k changes it. */
  function NextWorker(w: World, s: Step, k: nat): Worker
    requires Possible(w, s) && k < |w.workers|
  {
    var p := w.workers[k];
    if !OfWorker(s) || s.k != k then p
    else
      match s
      case OpenApproval(_, id, account, user) => Approving(id, account, user, w.rows[id].staged)
      case TryClaim(_, now) =>
        if Claimable(w.rows, p.id, p.account, p.user, now) then Running(p.id, p.account, p.user, p.staged) else Free
      case ExecutorEnds(_, outcome) => Ran(p.id, p.account, p.user, outcome)
      case OpenUndo(_, id, account, user) => Asking(id, account, user, w.rows[id].result.manifest)
      case TryClaimUndo(_) =>
        if Undoable(w.rows, p.id, p.account) then Reverting(p.id, p.account, p.user, p.manifest) else Free
      case RecipeEnds(_, outcome) => Reverted(p.id, p.account, p.user, p.manifest, outcome)
      case _ => Free
  }

  function NextRows(w: World, s: Step): Table
    requires Possible(w, s)
  {
    match s
    case Propose(id, account, user, staged, now, expiresAt) =>
      w.rows[id := Proposal(account, user, Pending, staged, "", Nothing, now, expiresAt, None)]
    case EditRows(id, account, user, staged) => EditedTable(w.rows, id, account, user, staged, "")
    case Reject(id, account, user) => DeclinedTable(w.rows, id, account, user)
    case Sweep(cutoff) => PrunedTable(w.rows, cutoff)
    case TryClaim(k, now) =>
      var p := w.workers[k];
      ClaimedTable(w.rows, p.id, p.account, p.user, now)
    case Close(k) =>
      var p := w.workers[k];
      FinalizedTable(w.rows, p.id, p.account, p.user,
                     if p.did.Some? then Consumed else Failed,
                     if p.did.Some? then Did(p.did.value) else Nothing)
    case TryClaimUndo(k) => UndoClaimedTable(w.rows, w.workers[k].id, w.workers[k].account)
    case CloseUndo(k) =>
      var p := w.workers[k];
      UndoFinalizedTable(w.rows, p.id, p.account, p.user,
                         if p.undid.Some? then Some(DidAndUndid(p.manifest, p.undid.value)) else None)
    case _ => w.rows
  }

  function NextLogs(w: World, s: Step): map<int, Log>
    requires Possible(w, s)
  {
    match s
    case Propose(id, _, _, _, _, _) => w.logs[id := BLANK]
    case TryClaim(k, now) =>
      var p := w.workers[k];
      var log := LogOf(w, p.id);
      if Claimable(w.rows, p.id, p.account, p.user, now) then
        w.logs[p.id := log.(entered := log.entered + 1, agreed := Some(w.rows[p.id].staged), ranWith := Some(p.staged))]
      else w.logs
    case ExecutorEnds(k, outcome) =>
      var log := LogOf(w, w.workers[k].id);
      if outcome.Some?
      then w.logs[w.workers[k].id := log.(executed := log.executed + 1, manifest := outcome)] else w.logs
    case RecipeEnds(k, outcome) =>
      var log := LogOf(w, w.workers[k].id);
      if outcome.Some? then w.logs[w.workers[k].id := log.(reversed := log.reversed + 1)] else w.logs
    case Crash(k) =>
      var p := w.workers[k];
      if Holds(p) then w.logs[p.id := LogOf(w, p.id).(lost := true)] else w.logs
    case _ => w.logs
  }

  function Apply(w: World, s: Step): World
    requires Possible(w, s)
  {
    World(NextRows(w, s), NextLogs(w, s),
          if OfWorker(s) then w.workers[s.k := NextWorker(w, s, s.k)] else w.workers)
  }

  function Start(workers: nat): World {
    World(map[], map[], seq(workers, _ => Free))
  }

  ghost predicate PossibleRun(w: World, steps: seq<Step>)
    decreases |steps|
  {
    steps == [] || (Possible(w, steps[0]) && PossibleRun(Apply(w, steps[0]), steps[1..]))
  }

  ghost function Run(w: World, steps: seq<Step>): World
    requires PossibleRun(w, steps)
    decreases |steps|
  {
    if steps == [] then w else Run(Apply(w, steps[0]), steps[1..])
  }

  // ---- The invariant ----

  predicate LogOk(l: Log) {
    && l.reversed <= l.executed <= l.entered <= 1
    && (l.agreed.Some? <==> l.entered == 1)
    && (l.ranWith.Some? <==> l.entered == 1)
    && (l.manifest.Some? <==> l.executed == 1)
  }

  predicate RowOk(r: Proposal, l: Log) {
    && l.entered == (if r.status.Pending? || r.status.Declined? then 0 else 1)
    && (r.status.Failed? ==> l.executed == 0)
    && (r.status.Executing? || r.status.Consumed? ==> l.reversed == 0)
    && (r.status.Consumed? || r.status.Undoing? || r.status.Undone? ==> l.executed == 1)
    && (r.status.Undone? ==> l.reversed == 1)
    && (r.status.Consumed? || r.status.Undoing? ==> r.result.Did? && l.manifest == Some(r.result.manifest))
    && (l.agreed.Some? ==> l.agreed.value == r.staged)
    && (l.lost ==> InFlight(r))
  }

  /** Claimed, for execution or for undo, and not finalized. */
  predicate InFlight(r: Proposal) {
    r.status == Executing || r.status == Undoing
  }

  /** What a worker knows of the log of its proposal. */
  predicate KnowsLog(p: Worker, l: Log) {
    match p
    case Running(_, _, _, staged) => l.entered == 1 && l.executed == 0 && l.ranWith == Some(staged) && !l.lost
    case Ran(_, _, _, did) =>
      l.entered == 1 && l.executed == (if did.Some? then 1 else 0) && l.reversed == 0 && l.manifest == did && !l.lost
    case Asking(_, _, _, manifest) => l.manifest == Some(manifest)
    case Reverting(_, _, _, manifest) => l.manifest == Some(manifest) && l.reversed == 0 && !l.lost
    case Reverted(_, _, _, manifest, undid) =>
      l.manifest == Some(manifest) && l.reversed == (if undid.Some? then 1 else 0) && !l.lost
    case _ => true
  }

  /** What it knows of the row, if that is still there. */
  predicate KnowsRow(p: Worker, r: Proposal) {
    match p
    case Free => true
    case Approving(_, account, user, _) => r.account == account && r.user == user
    case Running(_, account, user, _) => r.account == account && r.user == user && r.status == Executing
    case Ran(_, account, user, _) => r.account == account && r.user == user && r.status == Executing
    case Asking(_, account, _, _) => r.account == account
    case Reverting(_, account, _, _) => r.account == account && r.status == Undoing
    case Reverted(_, account, _, _, _) => r.account == account && r.status == Undoing
  }

  ghost predicate ProposalOk(w: World, id: int) {
    && LogOk(LogOf(w, id))
    && (id in w.rows ==> id in w.logs && RowOk(w.rows[id], LogOf(w, id)))
  }

  ghost predicate WorkerOk(w: World, k: nat)
    requires k < |w.workers|
  {
    var p := w.workers[k];
    p.Free? || (&& p.id in w.logs
                && KnowsLog(p, LogOf(w, p.id))
                && (p.id in w.rows ==> KnowsRow(p, w.rows[p.id])))
  }

  /** No two workers hold one proposal. */
  ghost predicate Apart(w: World, j: nat, k: nat)
    requires j < |w.workers| && k < |w.workers|
  {
    j != k && Holds(w.workers[j]) && Holds(w.workers[k]) ==> w.workers[j].id != w.workers[k].id
  }

  /** Somebody holds it. */
  ghost predicate Held(w: World, id: int) {
    exists k: nat | k < |w.workers| :: Holder(w, k, id)
  }

  predicate Holder(w: World, k: nat, id: int)
    requires k < |w.workers|
  {
    Holds(w.workers[k]) && w.workers[k].id == id
  }

  /** A proposal in flight that nobody lost is held. */
  ghost predicate HeldOrLost(w: World, id: int) {
    id in w.rows && InFlight(w.rows[id]) && !LogOf(w, id).lost ==> Held(w, id)
  }

  ghost predicate Inv(w: World) {
    && (forall id: int :: ProposalOk(w, id))
    && (forall id: int :: HeldOrLost(w, id))
    && (forall k: nat | k < |w.workers| :: WorkerOk(w, k))
    && (forall j: nat, k: nat | j < |w.workers| && k < |w.workers| :: Apart(w, j, k))
  }

  lemma StepKeepsProposal(w: World, s: Step, id: int)
    requires Possible(w, s) && ProposalOk(w, id) && (OfWorker(s) ==> WorkerOk(w, s.k))
    ensures ProposalOk(Apply(w, s), id)
  {
  }

  lemma StepKeepsActor(w: World, s: Step)
    requires Possible(w, s) && OfWorker(s) && WorkerOk(w, s.k)
    requires !w.workers[s.k].Free? ==> ProposalOk(w, w.workers[s.k].id)
    requires s.OpenApproval? || s.OpenUndo? ==> ProposalOk(w, s.id)
    ensures |Apply(w, s).workers| == |w.workers| && WorkerOk(Apply(w, s), s.k)
  {
  }

  lemma StepKeepsOther(w: World, s: Step, k: nat)
    requires Possible(w, s) && k < |w.workers| && !(OfWorker(s) && s.k == k)
    requires WorkerOk(w, k) && (OfWorker(s) ==> WorkerOk(w, s.k) && Apart(w, s.k, k))
    requires !w.workers[k].Free? ==> ProposalOk(w, w.workers[k].id)
    ensures |Apply(w, s).workers| == |w.workers| && WorkerOk(Apply(w, s), k)
  {
  }

  /** A new holder took a pending or a consumed row, which no worker holds. */
  lemma StepKeepsApart(w: World, s: Step, k: nat)
    requires Possible(w, s) && OfWorker(s) && k < |w.workers| && Apart(w, s.k, k)
    requires WorkerOk(w, k)
    requires !w.workers[k].Free? ==> ProposalOk(w, w.workers[k].id)
    ensures |Apply(w, s).workers| == |w.workers| && Apart(Apply(w, s), s.k, k) && Apart(Apply(w, s), k, s.k)
  {
  }

  lemma StepKeepsHolder(w: World, s: Step, k: nat, id: int)
    requires Possible(w, s) && k < |w.workers| && Holder(w, k, id) && WorkerOk(w, k)
    ensures |Apply(w, s).workers| == |w.workers|
    ensures HeldOrLost(Apply(w, s), id)
  {
    var w' := Apply(w, s);
    assert Holder(w', k, id) || (OfWorker(s) && s.k == k);
  }

  lemma StepKeepsHeldOrLost(w: World, s: Step, id: int)
    requires Inv(w) && Possible(w, s)
    ensures HeldOrLost(Apply(w, s), id)
  {
    var w' := Apply(w, s);
    assert ProposalOk(w, id) && HeldOrLost(w, id);
    if Held(w, id) {
      var k: nat :| k < |w.workers| && Holder(w, k, id);
      StepKeepsHolder(w, s, k, id);
    } else if OfWorker(s) {
      assert WorkerOk(w, s.k);
      assert |w'.workers| == |w.workers|;
      assert Holder(w', s.k, id) ==> Held(w', id);
    }
  }

  lemma StepKeepsInv(w: World, s: Step)
    requires Inv(w) && Possible(w, s)
    ensures Inv(Apply(w, s))
  {
    var w' := Apply(w, s);
    assert |w'.workers| == |w.workers|;
    forall id: int ensures ProposalOk(w', id) {
      StepKeepsProposal(w, s, id);
    }
    forall id: int ensures HeldOrLost(w', id) {
      StepKeepsHeldOrLost(w, s, id);
    }
    forall k: nat | k < |w'.workers| ensures WorkerOk(w', k) {
      if OfWorker(s) && s.k == k {
        StepKeepsActor(w, s);
      } else {
        StepKeepsOther(w, s, k);
      }
    }
    forall j: nat, k: nat | j < |w'.workers| && k < |w'.workers| ensures Apart(w', j, k) {
      if OfWorker(s) && s.k == j {
        StepKeepsApart(w, s, k);
      } else if OfWorker(s) && s.k == k {
        StepKeepsApart(w, s, j);
      } else {
        assert Apart(w, j, k);
      }
    }
  }

  lemma {:induction false} RunKeepsInv(w: World, steps: seq<Step>)
    requires Inv(w) && PossibleRun(w, steps)
    ensures Inv(Run(w, steps))
    decreases |steps|
  {
    if steps != [] {
      StepKeepsInv(w, steps[0]);
      RunKeepsInv(Apply(w, steps[0]), steps[1..]);
    }
  }

  // ---- What every run gives ----

  /** No executor is entered twice, and what succeeded less what was undone is 0 or 1. */
  lemma ExecutesAtMostOnce(workers: nat, steps: seq<Step>, id: int)
    requires PossibleRun(Start(workers), steps)
    ensures var w := Run(Start(workers), steps);
            var l := LogOf(w, id);
            && l.entered <= 1 && l.reversed <= l.executed <= l.reversed + 1
            && (id in w.rows && (w.rows[id].status.Pending? || w.rows[id].status.Declined?) ==> l.entered == 0)
            && (id in w.rows && w.rows[id].status.Consumed? ==> l.executed == l.reversed + 1)
            && (id in w.rows && (w.rows[id].status.Failed? || w.rows[id].status.Undone?) ==> l.executed == l.reversed)
  {
    RunKeepsInv(Start(workers), steps);
    assert ProposalOk(Run(Start(workers), steps), id);
  }

  /** A claim succeeds exactly on a row that is there, theirs, pending and not expired. Then it
      changes the status alone, and the executor gets the rows that were read; a refused claim
      changes nothing and ends the request. */
  lemma ClaimTakesIff(w: World, k: nat, now: int)
    requires Possible(w, TryClaim(k, now))
    ensures var p, w' := w.workers[k], Apply(w, TryClaim(k, now));
            && |w'.workers| == |w.workers|
            && (w'.workers[k].Running? <==>
                  && p.id in w.rows && w.rows[p.id].account == p.account && w.rows[p.id].user == p.user
                  && w.rows[p.id].status == Pending && now < w.rows[p.id].expiresAt)
            && (w'.workers[k].Running? ==>
                  && w'.workers[k] == Running(p.id, p.account, p.user, p.staged)
                  && w'.rows == w.rows[p.id := w.rows[p.id].(status := Executing)]
                  && LogOf(w', p.id).entered == LogOf(w, p.id).entered + 1
                  && LogOf(w', p.id).ranWith == Some(p.staged)
                  && LogOf(w', p.id).agreed == Some(w.rows[p.id].staged))
            && (!w'.workers[k].Running? ==> w'.rows == w.rows && w'.logs == w.logs && w'.workers[k] == Free)
  {
  }

  /** A request opens on a pending row of the one who approves it, and takes note of its rows. */
  lemma OpensOnTheirs(w: World, k: nat, id: int, account: int, user: int)
    requires Possible(w, OpenApproval(k, id, account, user))
    ensures id in w.rows && w.rows[id].account == account && w.rows[id].user == user && w.rows[id].status == Pending
    ensures Apply(w, OpenApproval(k, id, account, user)) ==
            w.(workers := w.workers[k := Approving(id, account, user, w.rows[id].staged)])
  {
  }

  /** A finished executor leaves 'consumed' with its change-set, or 'failed' with nothing. */
  lemma CloseWrites(workers: nat, steps: seq<Step>, k: nat)
    requires PossibleRun(Start(workers), steps) && Possible(Run(Start(workers), steps), Close(k))
    ensures var w := Run(Start(workers), steps);
            var p := w.workers[k];
            Apply(w, Close(k)) ==
            w.(workers := w.workers[k := Free],
               rows := if p.id !in w.rows then w.rows
                       else w.rows[p.id := w.rows[p.id].(
                              status := if p.did.None? then Failed else Consumed,
                              result := if p.did.None? then Nothing else Did(p.did.value))])
  {
    FinalizeMeetsExecuting(workers, steps, k);
  }

  /** A finished recipe leaves 'undone', by the one who asked, with both outcomes; or 'consumed'
      as it was before the undo. */
  lemma CloseUndoWrites(workers: nat, steps: seq<Step>, k: nat)
    requires PossibleRun(Start(workers), steps) && Possible(Run(Start(workers), steps), CloseUndo(k))
    ensures var w := Run(Start(workers), steps);
            var p := w.workers[k];
            Apply(w, CloseUndo(k)) ==
            w.(workers := w.workers[k := Free],
               rows := if p.id !in w.rows then w.rows
                       else if p.undid.None? then w.rows[p.id := w.rows[p.id].(status := Consumed)]
                       else w.rows[p.id := w.rows[p.id].(status := Undone, undoneBy := Some(p.user),
                                                         result := DidAndUndid(p.manifest, p.undid.value))])
  {
    RunKeepsInv(Start(workers), steps);
    assert WorkerOk(Run(Start(workers), steps), k);
  }

  /** An undo is claimed exactly on a consumed row of the account. */
  lemma UndoTakesIff(w: World, k: nat)
    requires Possible(w, TryClaimUndo(k))
    ensures var p, w' := w.workers[k], Apply(w, TryClaimUndo(k));
            && |w'.workers| == |w.workers| && w'.logs == w.logs
            && (w'.workers[k].Reverting? <==>
                  p.id in w.rows && w.rows[p.id].account == p.account && w.rows[p.id].status == Consumed)
            && (w'.workers[k].Reverting? ==>
                  && w'.workers[k] == Reverting(p.id, p.account, p.user, p.manifest)
                  && w'.rows == w.rows[p.id := w.rows[p.id].(status := Undoing)])
            && (!w'.workers[k].Reverting? ==> w'.rows == w.rows && w'.workers[k] == Free)
  {
  }

  /** Every claim of the run comes at or after this time. */
  predicate ClaimsFrom(steps: seq<Step>, time: int) {
    forall i | 0 <= i < |steps| && steps[i].TryClaim? :: time <= steps[i].now
  }

  /** Once a pending proposal has expired its executor is never entered, whatever runs. */
  lemma {:induction false} ExpiredIsNeverEntered(w: World, steps: seq<Step>, id: int, expiresAt: int)
    requires Inv(w) && PossibleRun(w, steps) && ClaimsFrom(steps, expiresAt)
    requires id in w.logs && LogOf(w, id).entered == 0
    requires id in w.rows ==> w.rows[id].expiresAt == expiresAt
    ensures LogOf(Run(w, steps), id).entered == 0
    ensures id in Run(w, steps).rows ==> Run(w, steps).rows[id].status in {Pending, Declined}
    decreases |steps|
  {
    assert ProposalOk(w, id);
    if steps != [] {
      StepKeepsInv(w, steps[0]);
      ExpiredStep(w, steps[0], id, expiresAt);
      assert forall i | 0 <= i < |steps[1..]| :: steps[1..][i] == steps[i + 1];
      ExpiredIsNeverEntered(Apply(w, steps[0]), steps[1..], id, expiresAt);
    }
  }

  lemma ExpiredStep(w: World, s: Step, id: int, expiresAt: int)
    requires Inv(w) && Possible(w, s) && (s.TryClaim? ==> expiresAt <= s.now)
    requires id in w.logs && LogOf(w, id).entered == 0
    requires id in w.rows ==> w.rows[id].expiresAt == expiresAt
    ensures id in Apply(w, s).logs && LogOf(Apply(w, s), id).entered == 0
    ensures id in Apply(w, s).rows ==> Apply(w, s).rows[id].expiresAt == expiresAt
  {
    if s.TryClaim? {
      ClaimTakesIff(w, s.k, s.now);
    }
  }

  /** The unguarded finalize only ever replaces 'executing', or finds the row pruned. */
  lemma FinalizeMeetsExecuting(workers: nat, steps: seq<Step>, k: nat)
    requires PossibleRun(Start(workers), steps) && Possible(Run(Start(workers), steps), Close(k))
    ensures var w := Run(Start(workers), steps);
            var p := w.workers[k];
            p.id in w.rows ==> Owned(w.rows, p.id, p.account, p.user) && w.rows[p.id].status == Executing
  {
    RunKeepsInv(Start(workers), steps);
    assert WorkerOk(Run(Start(workers), steps), k);
  }

  /** An undo recipe runs on exactly what the executor returned, and only on an effect that
      is still in place; the outcome it stores keeps that change-set. */
  lemma RecipeGetsTheManifest(workers: nat, steps: seq<Step>, k: nat)
    requires PossibleRun(Start(workers), steps)
    requires var w := Run(Start(workers), steps); k < |w.workers| && w.workers[k].Reverting?
    ensures var w := Run(Start(workers), steps);
            var l := LogOf(w, w.workers[k].id);
            l.manifest == Some(w.workers[k].manifest) && l.executed == 1 && l.reversed == 0
  {
    RunKeepsInv(Start(workers), steps);
    var w := Run(Start(workers), steps);
    assert WorkerOk(w, k) && ProposalOk(w, w.workers[k].id);
  }

  /** Once out of 'pending', a row keeps its staged data whatever runs; a declined, failed or
      undone one keeps everything. */
  lemma {:induction false} ClosedRowsStay(w: World, steps: seq<Step>, id: int)
    requires Inv(w) && PossibleRun(w, steps) && id in w.rows && w.rows[id].status != Pending
    ensures id in w.logs
    ensures var w' := Run(w, steps);
            id in w'.rows ==>
              && w'.rows[id].staged == w.rows[id].staged && w'.rows[id].status != Pending
              && (w.rows[id].status in {Declined, Failed, Undone} ==> w'.rows[id] == w.rows[id])
    decreases |steps|
  {
    assert ProposalOk(w, id);
    if steps != [] {
      var w1 := Apply(w, steps[0]);
      StepKeepsInv(w, steps[0]);
      ClosedRowStep(w, steps[0], id);
      if id in w1.rows {
        ClosedRowsStay(w1, steps[1..], id);
      } else {
        PrunedStaysGone(w1, steps[1..], id);
      }
    }
  }

  lemma ClosedRowStep(w: World, s: Step, id: int)
    requires Inv(w) && Possible(w, s) && id in w.rows && w.rows[id].status != Pending
    ensures id in w.logs && id in Apply(w, s).logs
    ensures var w' := Apply(w, s);
            id in w'.rows ==>
              && w'.rows[id].staged == w.rows[id].staged && w'.rows[id].status != Pending
              && (w.rows[id].status in {Declined, Failed, Undone} ==> w'.rows[id] == w.rows[id])
  {
    assert ProposalOk(w, id);
    if s.Close? {
      assert WorkerOk(w, s.k);
    }
  }

  lemma {:induction false} PrunedStaysGone(w: World, steps: seq<Step>, id: int)
    requires PossibleRun(w, steps) && id !in w.rows && id in w.logs
    ensures id !in Run(w, steps).rows
    decreases |steps|
  {
    if steps != [] {
      PrunedStaysGone(Apply(w, steps[0]), steps[1..], id);
    }
  }

  /** In every reachable state a proposal in flight, executing or undoing, has no request that
      holds it exactly when a request died holding it. */
  lemma UnheldIffLost(workers: nat, steps: seq<Step>, id: int)
    requires PossibleRun(Start(workers), steps)
    requires var w := Run(Start(workers), steps); id in w.rows && InFlight(w.rows[id])
    ensures var w := Run(Start(workers), steps);
            !Held(w, id) <==> LogOf(w, id).lost
  {
    RunKeepsInv(Start(workers), steps);
    var w := Run(Start(workers), steps);
    assert HeldOrLost(w, id);
    forall k: nat | k < |w.workers| && Holder(w, k, id) ensures !LogOf(w, id).lost {
      assert WorkerOk(w, k);
    }
  }

  /** A step loses a proposal exactly when it is the crash of the request that holds it. */
  lemma LosesIffHolderCrashes(w: World, s: Step, id: int)
    requires Inv(w) && Possible(w, s) && !LogOf(w, id).lost
    ensures LogOf(Apply(w, s), id).lost <==> s.Crash? && Holder(w, s.k, id)
  {
    if OfWorker(s) {
      assert WorkerOk(w, s.k);
    }
  }

  /** A lost proposal: in flight for good, with nobody to move it. */
  ghost predicate Abandoned(w: World, id: int) {
    && id in w.logs && LogOf(w, id).lost
    && (id in w.rows ==> InFlight(w.rows[id]))
    && !Held(w, id)
  }

  lemma AbandonedStep(w: World, s: Step, id: int)
    requires Inv(w) && Possible(w, s) && Abandoned(w, id)
    ensures Abandoned(Apply(w, s), id) && LogOf(Apply(w, s), id) == LogOf(w, id)
    ensures id in Apply(w, s).rows ==> id in w.rows && Apply(w, s).rows[id] == w.rows[id]
  {
    var w' := Apply(w, s);
    assert |w'.workers| == |w.workers|;
    forall k: nat | k < |w'.workers| ensures !Holder(w', k, id) {
      assert !Holder(w, k, id);
    }
    if OfWorker(s) {
      assert !Holder(w, s.k, id) && WorkerOk(w, s.k);
    }
  }

  /** Over every run a lost proposal keeps its row, 'executing' or 'undoing', to the letter until
      the sweep takes it: no request, edit, decline or undo can move it. */
  lemma {:induction false} AbandonedUntilSwept(w: World, steps: seq<Step>, id: int)
    requires Inv(w) && PossibleRun(w, steps) && Abandoned(w, id)
    ensures Abandoned(Run(w, steps), id) && LogOf(Run(w, steps), id) == LogOf(w, id)
    ensures id in Run(w, steps).rows ==> id in w.rows && Run(w, steps).rows[id] == w.rows[id]
    decreases |steps|
  {
    if steps != [] {
      StepKeepsInv(w, steps[0]);
      AbandonedStep(w, steps[0], id);
      AbandonedUntilSwept(Apply(w, steps[0]), steps[1..], id);
    }
  }

  /** A crash in the executor or the undo recipe, or after it and before the finalize, abandons
      the proposal. */
  lemma CrashAbandons(w: World, k: nat)
    requires Inv(w) && k < |w.workers| && Holds(w.workers[k])
    ensures Abandoned(Apply(w, Crash(k)), w.workers[k].id)
  {
    var w' := Apply(w, Crash(k));
    assert WorkerOk(w, k) && |w'.workers| == |w.workers|;
    forall j: nat | j < |w'.workers| ensures !Holder(w', j, w.workers[k].id) {
      assert Apart(w, j, k);
    }
  }

  // ---- The rows that run are the rows read, not the rows claimed ----

  /** What the last edit of this proposal wrote, starting from the rows read. */
  function LastWritten(steps: seq<Step>, id: int, account: int, user: int, staged: string): string
    decreases |steps|
  {
    if steps == [] then staged
    else
      var s := steps[0];
      LastWritten(steps[1..], id, account, user,
                  if s.EditRows? && s.id == id && s.account == account && s.user == user then s.staged else staged)
  }

  predicate Touches(s: Step, k: nat) {
    OfWorker(s) && s.k == k
  }

  lemma PendingStep(w: World, s: Step, k: nat, id: int, account: int, user: int)
    requires Inv(w) && Possible(w, s) && k < |w.workers| && !Touches(s, k) && Editable(w.rows, id, account, user)
    ensures var w' := Apply(w, s);
            && k < |w'.workers| && w'.workers[k] == w.workers[k] && id in w'.logs
            && (id in w'.rows && w'.rows[id].status == Pending ==>
                  && Editable(w'.rows, id, account, user)
                  && w'.rows[id].staged == LastWritten([s], id, account, user, w.rows[id].staged))
  {
    assert ProposalOk(w, id);
    assert LastWritten([s][1..], id, account, user, "") == "";
  }

  /** While worker k stands between reading and claiming, the row of a proposal that is still
      pending at the end holds what the last edit wrote. */
  lemma {:induction false} PendingRowsFollowEdits(w: World, steps: seq<Step>, k: nat, id: int, account: int, user: int)
    requires PossibleRun(w, steps) && Inv(w)
    requires k < |w.workers| && forall i | 0 <= i < |steps| :: !Touches(steps[i], k)
    requires Editable(w.rows, id, account, user) && Editable(Run(w, steps).rows, id, account, user)
    ensures Run(w, steps).rows[id].staged == LastWritten(steps, id, account, user, w.rows[id].staged)
    ensures k < |Run(w, steps).workers| && Run(w, steps).workers[k] == w.workers[k]
    decreases |steps|
  {
    if steps != [] {
      var w1 := Apply(w, steps[0]);
      StepKeepsInv(w, steps[0]);
      PendingStep(w, steps[0], k, id, account, user);
      if id !in w1.rows {
        PrunedStaysGone(w1, steps[1..], id);
      } else if w1.rows[id].status != Pending {
        ClosedRowsStay(w1, steps[1..], id);
      } else {
        assert forall i | 0 <= i < |steps[1..]| :: steps[1..][i] == steps[i + 1];
        PendingRowsFollowEdits(w1, steps[1..], k, id, account, user);
      }
    }
  }

  /** The executor gets the rows frozen by the claim exactly when the edits that landed
      between the read and the claim left the rows as they were read. */
  lemma ApprovedRowsRunIff(w: World, steps: seq<Step>, k: nat, id: int, account: int, user: int, now: int)
    requires Inv(w) && Possible(w, OpenApproval(k, id, account, user))
    requires var w1 := Apply(w, OpenApproval(k, id, account, user));
             && PossibleRun(w1, steps) && (forall i | 0 <= i < |steps| :: !Touches(steps[i], k))
             && Claimable(Run(w1, steps).rows, id, account, user, now)
    ensures var w2 := Run(Apply(w, OpenApproval(k, id, account, user)), steps);
            && Possible(w2, TryClaim(k, now))
            && var w3 := Apply(w2, TryClaim(k, now));
               && w3.workers[k].Running? && w3.workers[k].staged == w.rows[id].staged
               && w3.rows[id].status == Executing
               && (w3.workers[k].staged == w3.rows[id].staged <==>
                   LastWritten(steps, id, account, user, w.rows[id].staged) == w.rows[id].staged)
  {
    var w1 := Apply(w, OpenApproval(k, id, account, user));
    StepKeepsInv(w, OpenApproval(k, id, account, user));
    PendingRowsFollowEdits(w1, steps, k, id, account, user);
  }

  /** One edit in that gap: the stored rows say one thing and the executor wrote another. */
  lemma StaleRowsCanRun()
    ensures var steps := [Propose(7, 1, 2, "old", 0, 900), OpenApproval(0, 7, 1, 2),
                          EditRows(7, 1, 2, "new"), TryClaim(0, 10)];
            && PossibleRun(Start(1), steps)
            && var w := Run(Start(1), steps);
               7 in w.rows && w.rows[7].staged == "new" && |w.workers| == 1 && w.workers[0] == Running(7, 1, 2, "old")
  {
    var s0, s1 := Propose(7, 1, 2, "old", 0, 900), OpenApproval(0, 7, 1, 2);
    var s2, s3 := EditRows(7, 1, 2, "new"), TryClaim(0, 10);
    var w1 := Apply(Start(1), s0);
    var w2 := Apply(w1, s1);
    var w3 := Apply(w2, s2);
    var w4 := Apply(w3, s3);
    assert "old" != "new" by { assert "old"[0] == 'o' && "new"[0] == 'n'; }
    assert [s0, s1, s2, s3][1..] == [s1, s2, s3] && [s1, s2, s3][1..] == [s2, s3];
    assert [s2, s3][1..] == [s3] && [s3][1..] == [];
    assert PossibleRun(w4, []) && Run(w4, []) == w4;
    assert PossibleRun(w3, [s3]) && Run(w3, [s3]) == w4;
    assert PossibleRun(w2, [s2, s3]) && Run(w2, [s2, s3]) == w4;
    assert PossibleRun(w1, [s1, s2, s3]) && Run(w1, [s1, s2, s3]) == w4;
  }

  // ---- The other steps, field by field ----

  predicate OpenTo(r: Proposal, account: int, user: int) {
    r.account == account && r.user == user && r.status == Pending
  }

  /** Proposing adds a pending row under a new id; editing replaces the staged rows of a pending one
      of theirs and declining closes it; the sweep deletes what was created before its cutoff.
      No request is touched, and no log but the new one. */
  lemma StatementsInFields(w: World, id: int, account: int, user: int, staged: string, now: int, expiresAt: int,
                           cutoff: int)
    ensures Possible(w, Propose(id, account, user, staged, now, expiresAt)) <==> id !in w.logs
    ensures id !in w.logs ==>
              Apply(w, Propose(id, account, user, staged, now, expiresAt)) ==
              w.(logs := w.logs[id := Log(0, 0, 0, None, None, None, false)],
                 rows := w.rows[id := Proposal(account, user, Pending, staged, "", Nothing, now, expiresAt, None)])
    ensures Apply(w, EditRows(id, account, user, staged)) ==
            if id in w.rows && OpenTo(w.rows[id], account, user)
            then w.(rows := w.rows[id := w.rows[id].(staged := staged)]) else w
    ensures Apply(w, Reject(id, account, user)) ==
            if id in w.rows && OpenTo(w.rows[id], account, user)
            then w.(rows := w.rows[id := w.rows[id].(status := Declined)]) else w
    ensures var w' := Apply(w, Sweep(cutoff));
            && w'.logs == w.logs && w'.workers == w.workers
            && (forall i :: i in w'.rows <==> i in w.rows && w.rows[i].createdAt >= cutoff)
            && (forall i | i in w'.rows :: w'.rows[i] == w.rows[i])
  {
  }

  /** An executor that returns is noted with its change-set, one that raises is not; the request
      goes on to finalise either way. */
  lemma ExecutorsInFields(w: World, k: nat, outcome: Option<string>)
    requires Possible(w, ExecutorEnds(k, outcome))
    ensures var p, w' := w.workers[k], Apply(w, ExecutorEnds(k, outcome));
            && w'.rows == w.rows && w'.workers == w.workers[k := Ran(p.id, p.account, p.user, outcome)]
            && (outcome == None ==> w'.logs == w.logs)
            && (outcome != None ==>
                  w'.logs == w.logs[p.id := LogOf(w, p.id).(executed := LogOf(w, p.id).executed + 1,
                                                            manifest := outcome)])
  {
  }

  /** An undo opens on a consumed row of the account with a change-set, which the recipe will get;
      a recipe that returns is noted as a reversal. */
  lemma UndosInFields(w: World, k: nat, id: int, account: int, user: int, outcome: Option<string>)
    requires k < |w.workers|
    ensures Possible(w, OpenUndo(k, id, account, user)) <==>
            && w.workers[k] == Free && id in w.rows && w.rows[id].account == account
            && w.rows[id].status == Consumed && w.rows[id].result.Did?
    ensures Possible(w, OpenUndo(k, id, account, user)) ==>
              Apply(w, OpenUndo(k, id, account, user)) ==
              w.(workers := w.workers[k := Asking(id, account, user, w.rows[id].result.manifest)])
    ensures Possible(w, RecipeEnds(k, outcome)) ==>
              var p, w' := w.workers[k], Apply(w, RecipeEnds(k, outcome));
              && w'.rows == w.rows
              && w'.workers == w.workers[k := Reverted(p.id, p.account, p.user, p.manifest, outcome)]
              && (outcome == None ==> w'.logs == w.logs)
              && (outcome != None ==>
                    w'.logs == w.logs[p.id := LogOf(w, p.id).(reversed := LogOf(w, p.id).reversed + 1)])
  {
  }
}
