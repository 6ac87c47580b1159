/** Delivery rows: one per message sent about an alert (adapters/storage/alerts.py,
    alert_acknowledgments). Every statement commits on its own
    (adapters/storage/pg_adapter.py:732), so a step here is one statement. */
module AlertDeliveries {
  import opened Common
  import opened AlertTables

  datatype Status = Active | Info | Superseded | Acknowledged

  datatype Delivery = Delivery(
    account: int, alertType: string, vehicleId: string, sentTo: int, createdAt: int,
    status: Status, ackedBy: Option<int>, ackedAt: Option<int>)

  type Deliveries = map<int, Delivery>

  /** The logical alert a delivery belongs to. */
  datatype Triple = Triple(account: int, alertType: string, vehicleId: string)

  function TripleOf(r: Delivery): Triple {
    Triple(r.account, r.alertType, r.vehicleId)
  }

  /** UPDATE ... SET ... WHERE ...: the rows selected change, the others do not. */
  function UpdateWhere(d: Deliveries, where: (int, Delivery) -> bool, change: Delivery -> Delivery): (d': Deliveries)
    ensures d'.Keys == d.Keys
    ensures forall id | id in d :: d'[id] == if where(id, d[id]) then change(d[id]) else d[id]
  {
    map id | id in d :: if where(id, d[id]) then change(d[id]) else d[id]
  }

  /** ResolveListed closes by id what an earlier statement listed: the second half of
      auto-resolve, and each chunk of the nightly sweep of expired deliveries
      (capabilities/alerting/cleanup.py). */
  datatype Step =
    | Send(id: int, t: Triple, sentTo: int, now: int)
    | SendInfo(id: int, t: Triple, sentTo: int, now: int)
    | SupersedeInfo(t: Triple, sentTo: int)
    | Supersede(ids: set<int>, within: Option<int>)
    | CascadeAck(t: Triple, user: int, now: int)
    | ResolveListed(ids: set<int>, now: int)
    | Retire(account: int, vehicleId: string, now: int)

  function Acked(r: Delivery, user: int, now: int): Delivery {
    r.(ackedBy := Some(user), ackedAt := Some(now), status := Acknowledged)
  }

  /** One statement. An INSERT takes the next id of the sequence. */
  function Apply(d: Deliveries, s: Step): Deliveries {
    match s
    case Send(id, t, to, now) =>
      d[id := Delivery(t.account, t.alertType, t.vehicleId, to, now, Active, None, None)]
    case SendInfo(id, t, to, now) =>
      d[id := Delivery(t.account, t.alertType, t.vehicleId, to, now, Info, None, None)]
    case SupersedeInfo(t, to) =>
      UpdateWhere(d, (id: int, r: Delivery) => TripleOf(r) == t && r.sentTo == to && r.status == Info,
                  (r: Delivery) => r.(status := Superseded))
    case Supersede(ids, within) =>
      UpdateWhere(d, (id: int, r: Delivery) => id in ids && (within.Some? ==> r.account == within.value),
                  (r: Delivery) => r.(status := Superseded))
    case CascadeAck(t, user, now) =>
      UpdateWhere(d, (id: int, r: Delivery) => TripleOf(r) == t && r.ackedAt.None?,
                  (r: Delivery) => Acked(r, user, now))
    case ResolveListed(ids, now) =>
      UpdateWhere(d, (id: int, r: Delivery) => id in ids, (r: Delivery) => Acked(r, 0, now))
    case Retire(account, vehicle, now) =>
      UpdateWhere(d, (id: int, r: Delivery) =>
                    r.account == account && r.vehicleId == vehicle && r.ackedAt.None? && r.status == Active,
                  (r: Delivery) => Acked(r, 0, now))
  }

  /** The id of an INSERT is new. */
  predicate Possible(d: Deliveries, s: Step) {
    (s.Send? || s.SendInfo?) ==> s.id !in d
  }

  /** What auto-resolve lists first: the open, un-acknowledged deliveries of the triple. */
  function Listed(d: Deliveries, t: Triple): set<int> {
    set id | id in d && TripleOf(d[id]) == t && d[id].ackedAt.None? && d[id].status == Active
  }

  /** Telegram ids are positive; 0 and -1 stand for the system. */
  predicate ByHuman(r: Delivery) {
    r.ackedBy.Some? && r.ackedBy.value > 0 && r.ackedAt.Some?
  }

  /** The acknowledgements by people, which the resolve receipt attributes. */
  function HumanAcks(d: Deliveries, t: Triple): set<(int, int, int)> {
    set id | id in d && TripleOf(d[id]) == t && ByHuman(d[id])
           :: (id, d[id].ackedBy.value, d[id].ackedAt.value)
  }

  // ---- The table ----

  class DeliveryTable {
    var rows: Deliveries
    var nextId: int

    ghost predicate Valid()
      reads this
    {
      forall id | id in rows :: id < nextId
    }

    constructor ()
      ensures Valid() && rows == map[]
    {
      rows, nextId := map[], 1;
    }

    method CreateAlertAck(t: Triple, sentTo: int, now: int) returns (id: int)
      requires Valid()
      modifies this
      ensures Valid() && id !in old(rows)
      ensures rows == Apply(old(rows), Send(id, t, sentTo, now))
    {
      id := nextId;
      rows := rows[id := Delivery(t.account, t.alertType, t.vehicleId, sentTo, now, Active, None, None)];
      nextId := nextId + 1;
    }

    method CreateInfoAlertAck(t: Triple, sentTo: int, now: int) returns (id: int)
      requires Valid()
      modifies this
      ensures Valid() && id !in old(rows)
      ensures rows == Apply(Apply(old(rows), SupersedeInfo(t, sentTo)), SendInfo(id, t, sentTo, now))
    {
      rows := map i | i in rows ::
        if TripleOf(rows[i]) == t && rows[i].sentTo == sentTo && rows[i].status == Info
        then rows[i].(status := Superseded) else rows[i];
      id := nextId;
      rows := rows[id := Delivery(t.account, t.alertType, t.vehicleId, sentTo, now, Info, None, None)];
      nextId := nextId + 1;
    }

    /** Also the single-row form, with one id; no account means any. */
    method SupersedeAlertAcks(ids: set<int>, account: Option<int>) returns (touched: nat)
      requires Valid()
      modifies this`rows
      ensures Valid() && rows == Apply(old(rows), Supersede(ids, account))
      ensures touched ==
              |set i | i in old(rows) && i in ids && (account.Some? ==> old(rows)[i].account == account.value)|
    {
      touched := |set i | i in rows && i in ids && (account.Some? ==> rows[i].account == account.value)|;
      rows := map i | i in rows ::
        if i in ids && (account.Some? ==> rows[i].account == account.value)
        then rows[i].(status := Superseded) else rows[i];
    }

    /** The delivery half of an acknowledgement, from either side of the board. */
    method Cascade(t: Triple, user: int, now: int)
      requires Valid()
      modifies this`rows
      ensures Valid() && rows == Apply(old(rows), CascadeAck(t, user, now))
      ensures rows.Keys == old(rows).Keys
      ensures forall i | i in rows ::
                rows[i] == if OfTriple(old(rows)[i], t.account, t.alertType, t.vehicleId)
                              && old(rows)[i].ackedAt == None
                           then old(rows)[i].(ackedBy := Some(user), ackedAt := Some(now), status := Acknowledged)
                           else old(rows)[i]
    {
      rows := map i | i in rows ::
        if TripleOf(rows[i]) == t && rows[i].ackedAt.None? then Acked(rows[i], user, now) else rows[i];
    }

    /** Two statements: list, then update the listed ids. Called with nothing in between. */
    method AutoResolve(t: Triple, now: int) returns (resolved: set<int>)
      requires Valid()
      modifies this`rows
      ensures Valid() && resolved == Listed(old(rows), t)
      ensures rows == Apply(old(rows), ResolveListed(resolved, now))
      ensures rows.Keys == old(rows).Keys
      ensures forall i | i in rows ::
                rows[i] == if OfTriple(old(rows)[i], t.account, t.alertType, t.vehicleId)
                              && old(rows)[i].ackedAt == None && old(rows)[i].status == Active
                           then old(rows)[i].(ackedBy := Some(0), ackedAt := Some(now), status := Acknowledged)
                           else old(rows)[i]
    {
      resolved := Listed(rows, t);
      if resolved != {} {
        rows := map i | i in rows :: if i in resolved then Acked(rows[i], 0, now) else rows[i];
      }
    }

    method CloseForRetiredVehicle(account: int, vehicleId: string, now: int)
      requires Valid()
      modifies this`rows
      ensures Valid()
      ensures rows == if vehicleId == "" then old(rows) else Apply(old(rows), Retire(account, vehicleId, now))
      ensures rows.Keys == old(rows).Keys
      ensures forall i | i in rows ::
                rows[i] == if old(rows)[i].account == account && old(rows)[i].vehicleId == vehicleId && vehicleId != ""
                              && old(rows)[i].ackedAt == None && old(rows)[i].status == Active
                           then old(rows)[i].(ackedBy := Some(0), ackedAt := Some(now), status := Acknowledged)
                           else old(rows)[i]
    {
      if vehicleId == "" {
        return;
      }
      rows := map i | i in rows ::
        if rows[i].account == account && rows[i].vehicleId == vehicleId && rows[i].ackedAt.None? &&
            rows[i].status == Active
        then Acked(rows[i], 0, now) else rows[i];
    }

    /** ORDER BY acknowledged_at LIMIT 1: any earliest human acknowledgement. */
    method GetEarliestHumanAck(t: Triple) returns (r: Option<(int, int)>)
      ensures IsEarliest(r, HumanAcks(rows, t))
    {
      var acks := HumanAcks(rows, t);
      if acks == {} {
        return None;
      }
      var best :| best in acks;
      var todo := acks;
      while todo != {}
        invariant todo <= acks && best in acks
        invariant forall a | a in acks && a !in todo :: best.2 <= a.2
      {
        var a :| a in todo;
        if a.2 < best.2 {
          best := a;
        }
        todo := todo - {a};
      }
      r := Some((best.1, best.2));
    }
  }

  ghost predicate IsEarliest(r: Option<(int, int)>, acks: set<(int, int, int)>) {
    match r
    case None => acks == {}
    case Some((who, when)) => (exists a | a in acks :: a.1 == who && a.2 == when) && forall a | a in acks :: when <= a.2
  }

  // ---- What each statement does, field by field ----

  predicate OfTriple(r: Delivery, account: int, alertType: string, vehicleId: string) {
    r.account == account && r.alertType == alertType && r.vehicleId == vehicleId
  }

  /** A new delivery is open, or an info card, for its triple and recipient; the others stay. */
  lemma SendsInFields(d: Deliveries, id: int, t: Triple, to: int, now: int)
    requires id !in d
    ensures var sent, info := Apply(d, Send(id, t, to, now)), Apply(d, SendInfo(id, t, to, now));
            && sent.Keys == d.Keys + {id} == info.Keys
            && (forall i | i in d :: sent[i] == d[i] == info[i])
            && OfTriple(sent[id], t.account, t.alertType, t.vehicleId) && sent[id].status == Active
            && OfTriple(info[id], t.account, t.alertType, t.vehicleId) && info[id].status == Info
            && sent[id].sentTo == to == info[id].sentTo && sent[id].createdAt == now == info[id].createdAt
            && sent[id].ackedBy == None == info[id].ackedBy && sent[id].ackedAt == None == info[id].ackedAt
  {
  }

  /** Superseding changes the status of exactly the selected rows, and nothing else of them. */
  lemma SupersedesInFields(d: Deliveries, t: Triple, to: int, ids: set<int>, within: Option<int>, id: int)
    requires id in d
    ensures var cards, listed := Apply(d, SupersedeInfo(t, to)), Apply(d, Supersede(ids, within));
            && cards.Keys == d.Keys == listed.Keys
            && cards[id] == (if OfTriple(d[id], t.account, t.alertType, t.vehicleId) && d[id].sentTo == to
                                && d[id].status == Info
                             then d[id].(status := Superseded) else d[id])
            && listed[id] == (if id in ids && (within == None || within == Some(d[id].account))
                              then d[id].(status := Superseded) else d[id])
  {
  }

  /** An acknowledgement changes the waiting deliveries of the triple, in the name of the person
      and at that time. A delivery of another account, type or vehicle, and one that was
      acknowledged before, stays as it was. */
  lemma CascadeInFields(d: Deliveries, t: Triple, user: int, now: int, id: int)
    requires id in d
    ensures var d' := Apply(d, CascadeAck(t, user, now));
            && d'.Keys == d.Keys
            && (d[id].account != t.account || d[id].alertType != t.alertType || d[id].vehicleId != t.vehicleId ==>
                  d'[id] == d[id])
            && (d[id].ackedAt.Some? ==> d'[id] == d[id])
            && (OfTriple(d[id], t.account, t.alertType, t.vehicleId) && d[id].ackedAt == None ==>
                  && d'[id].ackedBy == Some(user) && d'[id].ackedAt == Some(now) && d'[id].status == Acknowledged
                  && OfTriple(d'[id], t.account, t.alertType, t.vehicleId)
                  && d'[id].sentTo == d[id].sentTo && d'[id].createdAt == d[id].createdAt)
  {
  }

  /** The system's closings: by listed ids, whatever is there; of a retired vehicle, what is open.
      A listing has the triple's open, un-acknowledged deliveries. */
  lemma ClosingsInFields(d: Deliveries, t: Triple, ids: set<int>, account: int, vehicleId: string, now: int, id: int)
    requires id in d
    ensures var closed := d[id].(ackedBy := Some(0), ackedAt := Some(now), status := Acknowledged);
            var byIds, retired := Apply(d, ResolveListed(ids, now)), Apply(d, Retire(account, vehicleId, now));
            && byIds.Keys == d.Keys == retired.Keys
            && byIds[id] == (if id in ids then closed else d[id])
            && retired[id] == (if d[id].account == account && d[id].vehicleId == vehicleId
                                  && d[id].ackedAt == None && d[id].status == Active then closed else d[id])
            && (id in Listed(d, t) <==> OfTriple(d[id], t.account, t.alertType, t.vehicleId)
                                        && d[id].ackedAt == None && d[id].status == Active)
  {
  }

  /** A person's acknowledgement of the triple: their id, which is positive, and its time. */
  lemma HumanAcksInFields(d: Deliveries, t: Triple, id: int, who: int, when: int)
    ensures (id, who, when) in HumanAcks(d, t) <==>
            && id in d && OfTriple(d[id], t.account, t.alertType, t.vehicleId)
            && d[id].ackedBy == Some(who) && who > 0 && d[id].ackedAt == Some(when)
  {
  }

  // ---- Runs ----

  ghost predicate Run(trace: seq<Deliveries>, steps: seq<Step>) {
    && |trace| == |steps| + 1 && trace[0] == map[]
    && (forall i | 0 <= i < |steps| :: Possible(trace[i], steps[i]) && trace[i + 1] == Apply(trace[i], steps[i]))
  }

  /** An open delivery has no acknowledgement, and one never comes without the other. */
  ghost predicate Sound(d: Deliveries) {
    forall id | id in d ::
      (d[id].status == Active ==> d[id].ackedAt.None?) && (d[id].ackedAt.None? <==> d[id].ackedBy.None?)
  }

  /** No delivery goes back to open and none disappears. */
  ghost predicate NeverReopens(d: Deliveries, d': Deliveries) {
    forall id | id in d :: id in d' && (d'[id].status == Active ==> d[id].status == Active)
                           && TripleOf(d'[id]) == TripleOf(d[id])
  }

  /** An acknowledgement, once written, stays as it is. */
  ghost predicate KeepsAcks(d: Deliveries, d': Deliveries) {
    forall id | id in d && d[id].ackedAt.Some? ::
        id in d' && d'[id].ackedAt == d[id].ackedAt && d'[id].ackedBy == d[id].ackedBy
  }

  /** The step does not overwrite an acknowledgement that landed after a listing. */
  predicate NotStale(d: Deliveries, s: Step) {
    s.ResolveListed? ==> forall id | id in s.ids && id in d :: d[id].ackedAt.None?
  }

  lemma StepKeepsSound(d: Deliveries, s: Step)
    requires Sound(d) && Possible(d, s)
    ensures Sound(Apply(d, s)) && NeverReopens(d, Apply(d, s))
  {
  }

  /** Acknowledger and time are written at most once by every step, except the closing by id of
      an auto-resolve or a nightly sweep whose listing has gone stale. The stamp decides: an
      overwrite leaves the row as it was only when it writes what was there. */
  lemma StepKeepsAcksIff(d: Deliveries, s: Step)
    requires Sound(d) && Possible(d, s)
    ensures !s.ResolveListed? ==> KeepsAcks(d, Apply(d, s))
    ensures s.ResolveListed? ==>
              (KeepsAcks(d, Apply(d, s)) <==>
               forall id | id in s.ids && id in d && d[id].ackedAt.Some? ::
                   d[id].ackedBy == Some(0) && d[id].ackedAt == Some(s.now))
  {
    if s.ResolveListed? && KeepsAcks(d, Apply(d, s)) {
      forall id | id in s.ids && id in d && d[id].ackedAt.Some?
        ensures d[id].ackedBy == Some(0) && d[id].ackedAt == Some(s.now)
      {
        assert Apply(d, s)[id] == Acked(d[id], 0, s.now);
      }
    }
  }

  lemma {:induction false} RunIsSound(trace: seq<Deliveries>, steps: seq<Step>)
    requires Run(trace, steps)
    ensures Sound(trace[|steps|])
  {
    if steps != [] {
      var n := |steps| - 1;
      RunIsSound(trace[..n + 1], steps[..n]);
      StepKeepsSound(trace[n], steps[n]);
    }
  }

  /** Over any run whose auto-resolves are not stale: once acknowledged by someone at some
      time, acknowledged by them at that time for good, and never open again. */
  lemma {:induction false} AckIsFinal(trace: seq<Deliveries>, steps: seq<Step>, from: nat, id: int)
    requires Run(trace, steps) && from <= |steps|
    requires forall i | from <= i < |steps| :: NotStale(trace[i], steps[i])
    requires id in trace[from] && trace[from][id].ackedAt.Some?
    ensures var last := trace[|steps|];
            id in last && last[id].ackedAt == trace[from][id].ackedAt && last[id].ackedBy == trace[from][id].ackedBy
            && last[id].status != Active
  {
    RunIsSound(trace, steps);
    if from < |steps| {
      var n := |steps| - 1;
      AckIsFinal(trace[..n + 1], steps[..n], from, id);
      RunIsSound(trace[..n + 1], steps[..n]);
      StepKeepsAcksIff(trace[n], steps[n]);
    }
  }

  // ---- Auto-resolve, retirement and the receipt ----

  /** Resolving right after listing, and retiring a vehicle, leave every triple's human
      acknowledgements alone, so the earliest one may be read before or after. */
  lemma ResolveKeepsHumanAcks(d: Deliveries, t: Triple, now: int, other: Triple)
    ensures HumanAcks(Apply(d, ResolveListed(Listed(d, t), now)), other) == HumanAcks(d, other)
  {
  }

  lemma RetireKeepsHumanAcks(d: Deliveries, account: int, vehicleId: string, now: int, other: Triple)
    ensures HumanAcks(Apply(d, Retire(account, vehicleId, now)), other) == HumanAcks(d, other)
  {
  }

  /** The receipt of a triple survives an auto-resolve or a sweep exactly when nobody
      acknowledged a listed delivery of it between the listing and the update: an
      acknowledgement that lands there is overwritten. */
  lemma ResolveLosesLateAcksIff(d: Deliveries, ids: set<int>, now: int, t: Triple)
    ensures HumanAcks(Apply(d, ResolveListed(ids, now)), t) == HumanAcks(d, t) <==>
            forall id | id in ids && id in d && TripleOf(d[id]) == t :: !ByHuman(d[id])
  {
    var d' := Apply(d, ResolveListed(ids, now));
    if exists id | id in ids && id in d && TripleOf(d[id]) == t :: ByHuman(d[id]) {
      var id :| id in ids && id in d && TripleOf(d[id]) == t && ByHuman(d[id]);
      assert (id, d[id].ackedBy.value, d[id].ackedAt.value) in HumanAcks(d, t);
      assert d'[id].ackedBy == Some(0);
    }
  }

  /** Such an interleaving: list, a person acknowledges, update. */
  lemma LateAckIsLost(id: int, t: Triple, user: int)
    requires user > 0
    ensures var d := Apply(map[], Send(id, t, 7, 0));
            var ids := Listed(d, t);
            var acked := Apply(d, CascadeAck(t, user, 1));
            HumanAcks(acked, t) == {(id, user, 1)} && HumanAcks(Apply(acked, ResolveListed(ids, 2)), t) == {}
  {
    var d := Apply(map[], Send(id, t, 7, 0));
    assert Listed(d, t) == {id};
    var acked := Apply(d, CascadeAck(t, user, 1));
    assert acked.Keys == {id} && acked[id] == Acked(d[id], user, 1);
    assert HumanAcks(acked, t) == {(id, user, 1)};
  }

  /** After an acknowledgement no delivery of its triple is waiting. */
  lemma CascadeLeavesNothingUnacked(d: Deliveries, t: Triple, user: int, now: int)
    requires Sound(d)
    ensures var d' := Apply(d, CascadeAck(t, user, now));
            forall id | id in d' && TripleOf(d'[id]) == t :: d'[id].ackedAt.Some? && d'[id].status != Active
  {
  }
}
