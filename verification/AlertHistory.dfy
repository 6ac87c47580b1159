/** The alert history: one row per account, type, vehicle and subkey, fired into by every
    check loop (adapters/storage/alerts.py, alert_history). A step is one statement, so a
    fire is two steps that other statements may fall between. */
module AlertHistory {
  import opened Common
  import opened AlertTables
  import AlertQuery
  import AlertDeliveries

  datatype Key = Key(account: int, alertType: string, vehicleId: string, subkey: string)

  function KeyOf(h: HistoryRow): Key {
    Key(h.account, h.alertType, h.vehicleId, h.subkey)
  }

  function TripleOf(h: HistoryRow): AlertDeliveries.Triple {
    AlertDeliveries.Triple(h.account, h.alertType, h.vehicleId)
  }

  /** The arguments of one fire, with the severity already normalised. */
  datatype Fire = Fire(key: Key, vehicleName: string, now: int, detail: string, severity: string, location: string)

  predicate Known(severity: string) {
    severity == "critical" || severity == "warning" || severity == "info"
  }

  /** Lowered; anything unknown or empty counts as a warning. */
  function Normalise(severity: string): (r: string)
    ensures Known(r)
  {
    var s := AlertQuery.Lower(if severity == "" then "warning" else severity);
    if Known(s) then s else "warning"
  }

  function Rank(severity: string): nat {
    if severity == "critical" then 2 else if severity == "warning" then 1 else 0
  }

  /** The SQL CASE that decides the stored severity. */
  function Sticky(stored: string, fired: string): string {
    if fired == "critical" then "critical"
    else if stored == "critical" then "critical"
    else if fired == "warning" && stored != "critical" then "warning"
    else stored
  }

  // ---- Vehicle scope of an acknowledgement ----

  /** Unrestricted, or the caller's vehicle names and provider ids as sent. */
  datatype Scope = Unrestricted | Only(names: seq<string>, ids: seq<string>)

  function Trimmed(raw: seq<string>): set<string> {
    set s | s in raw && AlertQuery.Strip(s) != "" :: AlertQuery.Strip(s)
  }

  function LoweredNames(raw: seq<string>): set<string> {
    set s | s in Trimmed(raw) :: AlertQuery.Lower(s)
  }

  /** With ids in hand, a row that has a vehicle id is decided by it and only a row
      without one falls back to the name; scoped to nothing admits nothing. */
  predicate Admits(scope: Scope, h: HistoryRow) {
    match scope
    case Unrestricted => true
    case Only(names, ids) =>
      if Trimmed(ids) != {} && h.vehicleId != "" then h.vehicleId in Trimmed(ids)
      else AlertQuery.Lower(h.vehicleName) in LoweredNames(names)
  }

  // ---- Statements ----

  datatype Table = Table(rows: History, nextId: int)

  const EMPTY := Table(map[], 1)

  datatype Step =
    | Insert(f: Fire)
    | Bump(f: Fire)
    | ClearTriple(t: AlertDeliveries.Triple)
    | ClearVehicle(account: int, vehicleId: string)
    | ClearStale(account: int, now: int, warningBefore: int, infoBefore: int)
    | AckTriple(t: AlertDeliveries.Triple, user: int, now: int)
    | AckRow(id: int, account: int, scope: Scope, user: int, now: int)

  function Fresh(f: Fire): HistoryRow {
    HistoryRow(f.key.account, f.key.alertType, f.key.vehicleId, f.key.subkey, f.vehicleName, f.detail,
               Some(f.location), "active", f.severity, f.now, f.now, 0, None, None)
  }

  function Bumped(h: HistoryRow, f: Fire): HistoryRow {
    h.(occurrences := h.occurrences + 1, vehicleName := f.vehicleName, lastSeen := f.now, lastDetail := f.detail,
       location := if f.location != "" then Some(f.location) else h.location,
       severity := Sticky(h.severity, f.severity))
  }

  function Cleared(h: HistoryRow): HistoryRow {
    h.(status := "cleared")
  }

  function AckedRow(h: HistoryRow, user: int, now: int): HistoryRow {
    h.(status := "cleared", lastSeen := now, acknowledgedBy := Some(user), acknowledgedAt := Some(now))
  }

  /** What the nightly sweep clears (capabilities/alerting/cleanup.py). */
  predicate Stale(h: HistoryRow, account: int, warningBefore: int, infoBefore: int) {
    && h.account == account && h.status == "active" && h.alertType != "events" && h.alertType != "maintenance"
    && ((h.severity == "warning" && h.lastSeen < warningBefore) || (h.severity == "info" && h.lastSeen < infoBefore))
  }

  predicate HasKey(rows: History, k: Key) {
    exists id | id in rows :: KeyOf(rows[id]) == k
  }

  function Apply(t: Table, s: Step): Table {
    match s
    case Insert(f) =>
      if HasKey(t.rows, f.key) then t else Table(t.rows[t.nextId := Fresh(f)], t.nextId + 1)
    case Bump(f) =>
      t.(rows := map id | id in t.rows :: if KeyOf(t.rows[id]) == f.key then Bumped(t.rows[id], f) else t.rows[id])
    case ClearTriple(tr) =>
      t.(rows := map id | id in t.rows ::
           if TripleOf(t.rows[id]) == tr && t.rows[id].status == "active" then Cleared(t.rows[id]) else t.rows[id])
    case ClearVehicle(account, v) =>
      t.(rows := map id | id in t.rows ::
           if t.rows[id].account == account && t.rows[id].vehicleId == v && t.rows[id].status == "active"
           then Cleared(t.rows[id]) else t.rows[id])
    case ClearStale(account, now, warningBefore, infoBefore) =>
      t.(rows := map id | id in t.rows ::
           if Stale(t.rows[id], account, warningBefore, infoBefore)
           then Cleared(t.rows[id]).(lastSeen := now) else t.rows[id])
    case AckTriple(tr, user, now) =>
      t.(rows := map id | id in t.rows ::
           if TripleOf(t.rows[id]) == tr && t.rows[id].status == "active"
           then AckedRow(t.rows[id], user, now) else t.rows[id])
    case AckRow(target, account, scope, user, now) =>
      t.(rows := map id | id in t.rows ::
           if id == target && t.rows[id].account == account && Admits(scope, t.rows[id])
           then AckedRow(t.rows[id], user, now) else t.rows[id])
  }

  // ---- The board's two tables together ----

  class Board {
    var rows: History
    var nextId: int
    const deliveries: AlertDeliveries.DeliveryTable

    ghost function History(): Table
      reads this
    {
      Table(rows, nextId)
    }

    constructor ()
      ensures History() == EMPTY && fresh(deliveries) && deliveries.Valid() && deliveries.rows == map[]
    {
      rows, nextId := map[], 1;
      deliveries := new AlertDeliveries.DeliveryTable();
    }

    /** INSERT OR IGNORE, then UPDATE, then read the row back. */
    method UpsertAlertHistory(key: Key, vehicleName: string, now: int, detail: string, severity: string,
                              location: string)
      returns (id: int)
      requires Sound(History())
      modifies this`rows, this`nextId
      ensures var f := Fire(key, vehicleName, now, detail, Normalise(severity), location);
              History() == Apply(Apply(old(History()), Insert(f)), Bump(f))
      ensures Sound(History()) && id in rows && KeyOf(rows[id]) == key
      ensures SpelledLike(severity, "critical") ==> rows[id].severity == "critical"
      ensures id in old(rows) ==>
                && rows[id].severity == Worse(old(rows)[id].severity, Meant(severity))
                && rows[id].status == old(rows)[id].status && rows[id].occurrences == old(rows)[id].occurrences + 1
      ensures id !in old(rows) ==>
                rows[id].severity == Meant(severity) && rows[id].status == "active" && rows[id].occurrences == 1
    {
      NormaliseMeans(severity);
      var f := Fire(key, vehicleName, now, detail, Normalise(severity), location);
      ApplyKeepsSound(History(), Insert(f));
      ApplyKeepsSound(Apply(History(), Insert(f)), Bump(f));
      if !HasKey(rows, key) {
        rows := rows[nextId := Fresh(f)];
        nextId := nextId + 1;
      }
      InsertHasKey(old(History()), f);
      rows := map i | i in rows :: if KeyOf(rows[i]) == key then Bumped(rows[i], f) else rows[i];
      ghost var old1 := Apply(old(History()), Insert(f)).rows;
      ghost var i :| i in old1 && KeyOf(old1[i]) == key;
      assert KeyOf(rows[i]) == key;
      id :| id in rows && KeyOf(rows[id]) == key;
      FireLeaves(old(History()), f, id);
    }

    /** Acknowledge one delivery: every delivery of its triple and every open history row
        of it close together. */
    method AcknowledgeAlert(ack: int, user: int, account: Option<int>, now: int) returns (found: bool)
      requires deliveries.Valid()
      modifies this`rows, deliveries`rows
      ensures deliveries.Valid()
      ensures found <==> ack in old(deliveries.rows)
                         && (account.Some? ==> old(deliveries.rows)[ack].account == account.value)
      ensures !found ==> History() == old(History()) && deliveries.rows == old(deliveries.rows)
      ensures found ==>
                var t := AlertDeliveries.TripleOf(old(deliveries.rows)[ack]);
                && deliveries.rows ==
                   AlertDeliveries.Apply(old(deliveries.rows), AlertDeliveries.CascadeAck(t, user, now))
                && History() == Apply(old(History()), AckTriple(t, user, now))
    {
      if ack !in deliveries.rows || (account.Some? && deliveries.rows[ack].account != account.value) {
        return false;
      }
      var t := AlertDeliveries.TripleOf(deliveries.rows[ack]);
      deliveries.Cascade(t, user, now);
      rows := map i | i in rows ::
        if TripleOf(rows[i]) == t && rows[i].status == "active" then AckedRow(rows[i], user, now) else rows[i];
      found := true;
    }

    /** Acknowledge one history row, within the caller's vehicle scope, then cascade.
        The guard reads status and scope; the update that follows repeats the scope only. */
    method AcknowledgeAlertHistory(id: int, user: int, account: int, scope: Scope, now: int) returns (found: bool)
      requires deliveries.Valid()
      modifies this`rows, deliveries`rows
      ensures deliveries.Valid()
      ensures found <==> id in old(rows) && old(rows)[id].account == account && old(rows)[id].status == "active"
                         && Admits(scope, old(rows)[id])
      ensures !found ==> History() == old(History()) && deliveries.rows == old(deliveries.rows)
      ensures found ==>
                && History() == Apply(old(History()), AckRow(id, account, scope, user, now))
                && deliveries.rows ==
                   AlertDeliveries.Apply(old(deliveries.rows),
                                         AlertDeliveries.CascadeAck(TripleOf(old(rows)[id]), user, now))
    {
      if !Acknowledgeable(rows, id, account, scope) {
        return false;
      }
      var t := TripleOf(rows[id]);
      rows := map i | i in rows ::
        if i == id && rows[i].account == account && Admits(scope, rows[i])
        then AckedRow(rows[i], user, now) else rows[i];
      deliveries.Cascade(t, user, now);
      found := true;
    }

    method ClearAlertHistory(t: AlertDeliveries.Triple) returns (closed: set<int>)
      modifies this`rows
      ensures History() == Apply(old(History()), ClearTriple(t))
      ensures closed == set i | i in old(rows) && TripleOf(old(rows)[i]) == t && old(rows)[i].status == "active"
    {
      closed := set i | i in rows && TripleOf(rows[i]) == t && rows[i].status == "active";
      if closed != {} {
        rows := map i | i in rows ::
          if TripleOf(rows[i]) == t && rows[i].status == "active" then Cleared(rows[i]) else rows[i];
      } else {
        assert forall i | i in rows :: i !in closed;
        assert Apply(History(), ClearTriple(t)).rows == rows;
      }
    }

    method CloseAlertsForRetiredVehicle(account: int, vehicleId: string, now: int) returns (closed: nat)
      requires deliveries.Valid()
      modifies this`rows, deliveries`rows
      ensures deliveries.Valid()
      ensures vehicleId == "" ==> closed == 0 && History() == old(History()) && deliveries.rows == old(deliveries.rows)
      ensures vehicleId != "" ==>
                && History() == Apply(old(History()), ClearVehicle(account, vehicleId))
                && deliveries.rows ==
                   AlertDeliveries.Apply(old(deliveries.rows), AlertDeliveries.Retire(account, vehicleId, now))
                && closed == |set i | i in old(rows) && old(rows)[i].account == account
                                       && old(rows)[i].vehicleId == vehicleId && old(rows)[i].status == "active"|
    {
      if vehicleId == "" {
        return 0;
      }
      closed := |set i | i in rows && rows[i].account == account && rows[i].vehicleId == vehicleId
                          && rows[i].status == "active"|;
      rows := map i | i in rows ::
        if rows[i].account == account && rows[i].vehicleId == vehicleId && rows[i].status == "active"
        then Cleared(rows[i]) else rows[i];
      deliveries.CloseForRetiredVehicle(account, vehicleId, now);
    }
  }

  predicate Acknowledgeable(rows: History, id: int, account: int, scope: Scope) {
    id in rows && rows[id].account == account && rows[id].status == "active" && Admits(scope, rows[id])
  }

  // ---- Severities, as they are written ----

  /** The same letters, in any case. */
  predicate SpelledLike(s: string, word: string) {
    |s| == |word| && forall i | 0 <= i < |s| :: s[i] == word[i] || s[i] as int == word[i] as int - 32
  }

  /** What a caller means by a severity: one of two words, or else a warning. */
  function Meant(severity: string): string {
    if SpelledLike(severity, "critical") then "critical"
    else if SpelledLike(severity, "info") then "info"
    else "warning"
  }

  function Worse(a: string, b: string): string {
    if a == "critical" || b == "critical" then "critical"
    else if a == "warning" || b == "warning" then "warning"
    else "info"
  }

  lemma LowerIs(s: string, word: string)
    requires forall i | 0 <= i < |word| :: 'a' <= word[i] <= 'z'
    ensures AlertQuery.Lower(s) == word <==> SpelledLike(s, word)
  {
    AlertQuery.LowerInChars(s);
  }

  /** "critical" is every spelling of critical, "info" every spelling of info, and "warning"
      everything else, the empty string included. */
  lemma NormaliseMeans(severity: string)
    ensures Normalise(severity) == Meant(severity)
    ensures Normalise(severity) == "critical" <==> SpelledLike(severity, "critical")
    ensures Normalise(severity) == "info" <==> SpelledLike(severity, "info")
    ensures Normalise(severity) == "warning" <==>
            !SpelledLike(severity, "critical") && !SpelledLike(severity, "info")
    ensures Normalise("") == "warning"
  {
    LowerIs(severity, "critical");
    LowerIs(severity, "warning");
    LowerIs(severity, "info");
    LowerIs("warning", "warning");
    assert "critical"[0] == 'c' && "info"[0] == 'i' && "warning"[0] == 'w';
  }

  // ---- What each statement does, field by field ----

  predicate OfKey(h: HistoryRow, k: Key) {
    h.account == k.account && h.alertType == k.alertType && h.vehicleId == k.vehicleId && h.subkey == k.subkey
  }

  /** A fire whose key has no row adds one, open and not yet counted; otherwise it adds none. */
  lemma InsertInFields(t: Table, f: Fire)
    requires Sound(t)
    ensures var t' := Apply(t, Insert(f));
            && (forall id | id in t.rows :: id in t'.rows && t'.rows[id] == t.rows[id])
            && ((exists id | id in t.rows :: OfKey(t.rows[id], f.key)) ==> t' == t)
            && (!(exists id | id in t.rows :: OfKey(t.rows[id], f.key)) ==>
                  && t'.rows.Keys == t.rows.Keys + {t.nextId} && t.nextId !in t.rows && t'.nextId > t.nextId
                  && var h := t'.rows[t.nextId];
                     && OfKey(h, f.key) && h.status == "active" && h.occurrences == 0
                     && h.severity == f.severity && h.vehicleName == f.vehicleName && h.lastDetail == f.detail
                     && h.location == Some(f.location) && h.firstSeen == f.now == h.lastSeen
                     && h.acknowledgedBy == None && h.acknowledgedAt == None)
  {
    if HasKey(t.rows, f.key) {
      var id :| id in t.rows && KeyOf(t.rows[id]) == f.key;
      assert OfKey(t.rows[id], f.key);
    }
    assert forall id | id in t.rows :: OfKey(t.rows[id], f.key) <==> KeyOf(t.rows[id]) == f.key;
  }

  /** The second statement counts the fire on the row of its key and refreshes it, and leaves
      status, first time and actor. */
  lemma BumpInFields(t: Table, f: Fire, id: int)
    requires Sound(t) && Known(f.severity) && id in t.rows
    ensures var t' := Apply(t, Bump(f));
            && t'.rows.Keys == t.rows.Keys && t'.nextId == t.nextId
            && var h, h' := t.rows[id], t'.rows[id];
               if !OfKey(h, f.key) then h' == h
               else
                 && OfKey(h', f.key) && h'.occurrences == h.occurrences + 1
                 && h'.severity == Worse(h.severity, f.severity)
                 && h'.vehicleName == f.vehicleName && h'.lastSeen == f.now && h'.lastDetail == f.detail
                 && h'.location == (if f.location == "" then h.location else Some(f.location))
                 && h'.status == h.status && h'.firstSeen == h.firstSeen
                 && h'.acknowledgedBy == h.acknowledgedBy && h'.acknowledgedAt == h.acknowledgedAt
  {
  }

  /** Both statements of a fire, on the row of its key. */
  lemma FireLeaves(t: Table, f: Fire, id: int)
    requires Sound(t) && Known(f.severity)
    requires var rows := Apply(Apply(t, Insert(f)), Bump(f)).rows; id in rows && KeyOf(rows[id]) == f.key
    ensures var h' := Apply(Apply(t, Insert(f)), Bump(f)).rows[id];
            && (id in t.rows ==>
                  && h'.severity == Worse(t.rows[id].severity, f.severity)
                  && h'.status == t.rows[id].status && h'.occurrences == t.rows[id].occurrences + 1)
            && (id !in t.rows ==> h'.severity == f.severity && h'.status == "active" && h'.occurrences == 1)
  {
    var t1 := Apply(t, Insert(f));
    ApplyKeepsSound(t, Insert(f));
    InsertInFields(t, f);
    BumpInFields(t1, f, id);
  }

  /** Clearing touches the status of open rows of the triple, or of the vehicle, and nothing else
      of them; the sweep takes warnings and infos that were last seen too long ago, but no events
      and no maintenance, and stamps its time. */
  lemma ClearsInFields(t: Table, tr: AlertDeliveries.Triple, account: int, vehicleId: string, now: int,
                       warningBefore: int, infoBefore: int, id: int)
    requires Sound(t) && id in t.rows
    ensures var h := t.rows[id];
            var byTriple, byVehicle := Apply(t, ClearTriple(tr)), Apply(t, ClearVehicle(account, vehicleId));
            var stale := Apply(t, ClearStale(account, now, warningBefore, infoBefore));
            && byTriple.rows.Keys == t.rows.Keys == byVehicle.rows.Keys == stale.rows.Keys
            && byTriple.rows[id] == (if h.account == tr.account && h.alertType == tr.alertType
                                        && h.vehicleId == tr.vehicleId && h.status == "active"
                                     then h.(status := "cleared") else h)
            && byVehicle.rows[id] == (if h.account == account && h.vehicleId == vehicleId && h.status == "active"
                                      then h.(status := "cleared") else h)
            && stale.rows[id] == (if h.account == account && h.status == "active"
                                     && h.alertType !in ["events", "maintenance"]
                                     && h.severity != "critical"
                                     && h.lastSeen < (if h.severity == "warning" then warningBefore else infoBefore)
                                  then h.(status := "cleared", lastSeen := now) else h)
  {
    assert Known(t.rows[id].severity);
  }

  /** Acknowledging by triple closes its open rows; by id it closes that row of the account inside
      the scope, open or not. Both write the person and the time. */
  lemma AcksInFields(t: Table, tr: AlertDeliveries.Triple, target: int, account: int, scope: Scope, user: int, now: int,
                     id: int)
    requires id in t.rows
    ensures var h := t.rows[id];
            var acked := h.(status := "cleared", lastSeen := now, acknowledgedBy := Some(user),
                            acknowledgedAt := Some(now));
            var byTriple := Apply(t, AckTriple(tr, user, now));
            var byId := Apply(t, AckRow(target, account, scope, user, now));
            && byTriple.rows.Keys == t.rows.Keys == byId.rows.Keys
            && byTriple.rows[id] == (if h.account == tr.account && h.alertType == tr.alertType
                                        && h.vehicleId == tr.vehicleId && h.status == "active" then acked else h)
            && byId.rows[id] == (if id == target && h.account == account && Admits(scope, h) then acked else h)
  {
  }

  /** A row with a vehicle id is admitted by the ids when the caller has any; any other row, and
      any row when the caller has none, by the name in any case. Blank entries count for nothing. */
  lemma AdmitsIff(names: seq<string>, ids: seq<string>, h: HistoryRow)
    ensures Admits(Unrestricted, h)
    ensures var anId := exists i | 0 <= i < |ids| :: AlertQuery.Strip(ids[i]) != "";
            Admits(Only(names, ids), h) <==>
            if anId && h.vehicleId != "" then exists i | 0 <= i < |ids| :: AlertQuery.Strip(ids[i]) == h.vehicleId
            else exists i | 0 <= i < |names| ::
                   AlertQuery.Strip(names[i]) != ""
                   && AlertQuery.Lower(AlertQuery.Strip(names[i])) == AlertQuery.Lower(h.vehicleName)
  {
    if i :| 0 <= i < |ids| && AlertQuery.Strip(ids[i]) != "" {
      assert AlertQuery.Strip(ids[i]) in Trimmed(ids);
    }
    if i :| 0 <= i < |names| && AlertQuery.Strip(names[i]) != ""
            && AlertQuery.Lower(AlertQuery.Strip(names[i])) == AlertQuery.Lower(h.vehicleName) {
      assert AlertQuery.Strip(names[i]) in Trimmed(names);
    }
  }

  // ---- One row per key ----

  ghost predicate Sound(t: Table) {
    && (forall id | id in t.rows :: id < t.nextId && Known(t.rows[id].severity))
    && (forall i, j | i in t.rows && j in t.rows && KeyOf(t.rows[i]) == KeyOf(t.rows[j]) :: i == j)
  }

  ghost predicate WellFired(s: Step) {
    (s.Insert? || s.Bump?) ==> Known(s.f.severity)
  }

  lemma ApplyKeepsSound(t: Table, s: Step)
    requires Sound(t) && WellFired(s)
    ensures Sound(Apply(t, s))
    ensures forall id | id in t.rows :: id in Apply(t, s).rows && KeyOf(Apply(t, s).rows[id]) == KeyOf(t.rows[id])
  {
    var t' := Apply(t, s);
    forall id | id in t.rows ensures id in t'.rows && KeyOf(t'.rows[id]) == KeyOf(t.rows[id]) {}
    if s.Insert? && !HasKey(t.rows, s.f.key) {
      assert forall id | id in t.rows :: KeyOf(t.rows[id]) != s.f.key;
      assert t'.rows.Keys == t.rows.Keys + {t.nextId};
    } else {
      assert t'.rows.Keys == t.rows.Keys;
    }
  }

  lemma InsertHasKey(t: Table, f: Fire)
    ensures HasKey(Apply(t, Insert(f)).rows, f.key)
  {
    if !HasKey(t.rows, f.key) {
      assert KeyOf(Apply(t, Insert(f)).rows[t.nextId]) == f.key;
    }
  }

  // ---- Runs ----

  ghost function Run(steps: seq<Step>): Table {
    if steps == [] then EMPTY else Apply(Run(steps[..|steps| - 1]), steps[|steps| - 1])
  }

  /** The inserts, and the updates, that one key received, in order. */
  ghost function Inserts(steps: seq<Step>, k: Key): seq<Fire> {
    if steps == [] then []
    else
      var n := |steps| - 1;
      Inserts(steps[..n], k) + if steps[n].Insert? && steps[n].f.key == k then [steps[n].f] else []
  }

  ghost function Bumps(steps: seq<Step>, k: Key): seq<Fire> {
    if steps == [] then []
    else
      var n := |steps| - 1;
      Bumps(steps[..n], k) + if steps[n].Bump? && steps[n].f.key == k then [steps[n].f] else []
  }

  /** Each update follows the insert of its own fire, so none runs before the first. */
  ghost predicate InsertedFirst(steps: seq<Step>) {
    forall i | 0 <= i < |steps| && steps[i].Bump? :: Inserts(steps[..i], steps[i].f.key) != []
  }

  ghost function TopRank(fires: seq<Fire>): nat {
    if fires == [] then 0
    else
      var n := |fires| - 1;
      var r := TopRank(fires[..n]);
      if Rank(fires[n].severity) > r then Rank(fires[n].severity) else r
  }

  /** The last non-empty location, or empty. */
  ghost function LatestLocation(fires: seq<Fire>): string {
    if fires == [] then ""
    else
      var n := |fires| - 1;
      if fires[n].location != "" then fires[n].location else LatestLocation(fires[..n])
  }

  /** What the row of a key says after the given inserts and updates. */
  ghost predicate Summarises(h: HistoryRow, inserts: seq<Fire>, bumps: seq<Fire>)
    requires inserts != []
  {
    && h.occurrences == |bumps| && h.firstSeen == inserts[0].now
    && Rank(h.severity) == TopRank([inserts[0]] + bumps)
    && h.location == Some(LatestLocation([inserts[0]] + bumps))
  }

  ghost predicate RowsAre(t: Table, k: Key, inserts: seq<Fire>, bumps: seq<Fire>) {
    && (HasKey(t.rows, k) <==> inserts != [])
    && (inserts != [] ==> forall id | id in t.rows && KeyOf(t.rows[id]) == k :: Summarises(t.rows[id], inserts, bumps))
  }

  lemma StickyIsMax(stored: string, fired: string)
    requires Known(stored) && Known(fired)
    ensures Known(Sticky(stored, fired))
    ensures Rank(Sticky(stored, fired)) == if Rank(fired) > Rank(stored) then Rank(fired) else Rank(stored)
  {
  }

  lemma AppendFire(head: Fire, bumps: seq<Fire>, f: Fire)
    ensures TopRank([head] + (bumps + [f])) ==
            if Rank(f.severity) > TopRank([head] + bumps) then Rank(f.severity) else TopRank([head] + bumps)
    ensures LatestLocation([head] + (bumps + [f])) ==
            if f.location != "" then f.location else LatestLocation([head] + bumps)
  {
    var all := [head] + (bumps + [f]);
    assert all[..|all| - 1] == [head] + bumps;
  }

  lemma OneFire(f: Fire)
    requires Known(f.severity)
    ensures TopRank([f]) == Rank(f.severity) && LatestLocation([f]) == f.location
  {
    assert [f][..0] == [];
  }

  lemma HadKeyHasKey(t: Table, s: Step, k: Key)
    requires Sound(t) && WellFired(s) && HasKey(t.rows, k)
    ensures HasKey(Apply(t, s).rows, k)
  {
    ApplyKeepsSound(t, s);
    var id :| id in t.rows && KeyOf(t.rows[id]) == k;
    assert id in Apply(t, s).rows && KeyOf(Apply(t, s).rows[id]) == k;
  }

  lemma InsertRows(t: Table, s: Step, k: Key, inserts: seq<Fire>, bumps: seq<Fire>)
    requires Sound(t) && WellFired(s) && RowsAre(t, k, inserts, bumps)
    requires s.Insert? && s.f.key == k && (inserts == [] ==> bumps == [])
    ensures RowsAre(Apply(t, s), k, inserts + [s.f], bumps)
  {
    var t' := Apply(t, s);
    ApplyKeepsSound(t, s);
    InsertHasKey(t, s.f);
    if inserts == [] {
      OneFire(s.f);
      assert [s.f] + [] == [s.f];
      forall id | id in t'.rows && KeyOf(t'.rows[id]) == k
        ensures Summarises(t'.rows[id], [s.f], [])
      {
        assert id !in t.rows ==> t'.rows[id] == Fresh(s.f);
      }
    } else {
      assert (inserts + [s.f])[0] == inserts[0];
      assert t' == t;
      forall id | id in t.rows && KeyOf(t.rows[id]) == k
        ensures Summarises(t.rows[id], inserts + [s.f], bumps)
      {
        assert Summarises(t.rows[id], inserts, bumps);
      }
    }
  }

  lemma BumpRows(t: Table, s: Step, k: Key, inserts: seq<Fire>, bumps: seq<Fire>)
    requires Sound(t) && WellFired(s) && RowsAre(t, k, inserts, bumps)
    requires s.Bump? && s.f.key == k && inserts != []
    ensures RowsAre(Apply(t, s), k, inserts, bumps + [s.f])
  {
    var t' := Apply(t, s);
    if HasKey(t.rows, k) {
      HadKeyHasKey(t, s, k);
    }
    AppendFire(inserts[0], bumps, s.f);
    forall id | id in t'.rows && KeyOf(t'.rows[id]) == k
      ensures Summarises(t'.rows[id], inserts, bumps + [s.f])
    {
      assert Summarises(t.rows[id], inserts, bumps);
      StickyIsMax(t.rows[id].severity, s.f.severity);
    }
  }

  lemma OtherRows(t: Table, s: Step, k: Key, inserts: seq<Fire>, bumps: seq<Fire>)
    requires Sound(t) && WellFired(s) && RowsAre(t, k, inserts, bumps)
    requires !((s.Insert? || s.Bump?) && s.f.key == k)
    ensures RowsAre(Apply(t, s), k, inserts, bumps)
  {
    var t' := Apply(t, s);
    if HasKey(t.rows, k) {
      HadKeyHasKey(t, s, k);
    }
    forall id | id in t'.rows && KeyOf(t'.rows[id]) == k
      ensures id in t.rows && KeyOf(t.rows[id]) == k
      ensures Summarises(t.rows[id], inserts, bumps) ==> Summarises(t'.rows[id], inserts, bumps)
    {
    }
  }

  lemma StepRows(t: Table, s: Step, k: Key, inserts: seq<Fire>, bumps: seq<Fire>)
    requires Sound(t) && WellFired(s) && RowsAre(t, k, inserts, bumps)
    requires s.Bump? && s.f.key == k ==> inserts != []
    requires inserts == [] ==> bumps == []
    ensures RowsAre(Apply(t, s), k,
                    inserts + (if s.Insert? && s.f.key == k then [s.f] else []),
                    bumps + (if s.Bump? && s.f.key == k then [s.f] else []))
  {
    assert inserts + [] == inserts && bumps + [] == bumps;
    if s.Insert? && s.f.key == k {
      InsertRows(t, s, k, inserts, bumps);
    } else if s.Bump? && s.f.key == k {
      BumpRows(t, s, k, inserts, bumps);
    } else {
      OtherRows(t, s, k, inserts, bumps);
    }
  }

  lemma {:induction false} RunRows(steps: seq<Step>, k: Key)
    requires (forall i | 0 <= i < |steps| :: WellFired(steps[i])) && InsertedFirst(steps)
    ensures Sound(Run(steps)) && RowsAre(Run(steps), k, Inserts(steps, k), Bumps(steps, k))
    ensures Inserts(steps, k) == [] ==> Bumps(steps, k) == []
  {
    if steps != [] {
      var n := |steps| - 1;
      var before := steps[..n];
      assert forall i | 0 <= i < n :: before[..i] == steps[..i];
      RunRows(before, k);
      ApplyKeepsSound(Run(before), steps[n]);
      StepRows(Run(before), steps[n], k, Inserts(before, k), Bumps(before, k));
    }
  }

  lemma TopRankBounds(fires: seq<Fire>, i: nat)
    requires i < |fires|
    ensures Rank(fires[i].severity) <= TopRank(fires)
  {
    if i < |fires| - 1 {
      TopRankBounds(fires[..|fires| - 1], i);
    }
  }

  lemma TopRankWithin(head: Fire, fires: seq<Fire>)
    requires head in fires
    ensures TopRank([head] + fires) == TopRank(fires)
  {
    var i :| 0 <= i < |fires| && fires[i] == head;
    TopRankBounds(fires, i);
    TopRankHead(head, fires);
  }

  lemma TopRankHead(head: Fire, fires: seq<Fire>)
    ensures TopRank([head] + fires) ==
            if Rank(head.severity) > TopRank(fires) then Rank(head.severity) else TopRank(fires)
  {
    if fires == [] {
      assert [head] + fires == [head] && [head][..0] == [];
    } else {
      var n := |fires| - 1;
      assert ([head] + fires)[..n + 1] == [head] + fires[..n];
      TopRankHead(head, fires[..n]);
    }
  }

  lemma LatestWithin(head: Fire, fires: seq<Fire>)
    requires head in fires
    ensures LatestLocation([head] + fires) == LatestLocation(fires)
  {
    LatestHead(head, fires);
    if LatestLocation(fires) == "" {
      var i :| 0 <= i < |fires| && fires[i] == head;
      NoLocation(fires, i);
    }
  }

  lemma LatestHead(head: Fire, fires: seq<Fire>)
    ensures LatestLocation([head] + fires) ==
            if LatestLocation(fires) != "" then LatestLocation(fires) else head.location
  {
    if fires == [] {
      assert [head] + fires == [head] && [head][..0] == [];
    } else {
      var n := |fires| - 1;
      assert ([head] + fires)[..n + 1] == [head] + fires[..n];
      LatestHead(head, fires[..n]);
    }
  }

  lemma NoLocation(fires: seq<Fire>, i: nat)
    requires i < |fires| && LatestLocation(fires) == ""
    ensures fires[i].location == ""
  {
    if i < |fires| - 1 {
      NoLocation(fires[..|fires| - 1], i);
    }
  }

  ghost predicate OnlyRow(rows: History, k: Key, id: int) {
    id in rows && KeyOf(rows[id]) == k && forall j | j in rows && KeyOf(rows[j]) == k :: j == id
  }

  /** Over any interleaving of fires with acknowledgements, clears and retirements, once
      every fire has run both statements: each fired key has exactly one row; its count is
      the number of fires, its severity the highest fired, its first_seen the first fire
      and its location the latest non-empty one. */
  lemma HistoryRowSummarisesFires(steps: seq<Step>, k: Key) returns (id: int)
    requires (forall i | 0 <= i < |steps| :: WellFired(steps[i])) && InsertedFirst(steps)
    requires multiset(Inserts(steps, k)) == multiset(Bumps(steps, k))
    ensures var fires, rows := Bumps(steps, k), Run(steps).rows;
            && (fires == [] ==> !HasKey(rows, k))
            && (fires != [] ==>
                  && OnlyRow(rows, k, id)
                  && Inserts(steps, k) != []
                  && rows[id].occurrences == |fires|
                  && Rank(rows[id].severity) == TopRank(fires)
                  && rows[id].firstSeen == Inserts(steps, k)[0].now
                  && rows[id].location == Some(LatestLocation(fires)))
  {
    RunRows(steps, k);
    var inserts, fires, rows := Inserts(steps, k), Bumps(steps, k), Run(steps).rows;
    SameFires(inserts, fires);
    id := 0;
    if fires != [] {
      TopRankWithin(inserts[0], fires);
      LatestWithin(inserts[0], fires);
      id :| id in rows && KeyOf(rows[id]) == k;
      assert Summarises(rows[id], inserts, fires);
    }
  }

  lemma SameFires(a: seq<Fire>, b: seq<Fire>)
    requires multiset(a) == multiset(b)
    ensures |a| == |b| && (a != [] ==> a[0] in b)
  {
    assert |multiset(a)| == |multiset(b)|;
    if a != [] {
      assert a[0] in multiset(a);
    }
  }

  // ---- Status ----

  /** A row is open only until the first statement that closes it: no fire, and nothing
      else, reopens it. */
  lemma ClosedStaysClosed(t: Table, s: Step, id: int)
    requires Sound(t) && id in t.rows && t.rows[id].status != "active"
    ensures id in Apply(t, s).rows && Apply(t, s).rows[id].status != "active"
  {
  }

  /** A re-fire of a cleared alert counts it and refreshes it but leaves it cleared. */
  lemma RefireStaysCleared(t: Table, f: Fire, id: int)
    requires Sound(t) && id in t.rows && KeyOf(t.rows[id]) == f.key && t.rows[id].status == "cleared"
    ensures var t' := Apply(Apply(t, Insert(f)), Bump(f));
            id in t'.rows && t'.rows[id].status == "cleared" && t'.rows[id].occurrences == t.rows[id].occurrences + 1
            && t'.rows[id].lastSeen == f.now
  {
    assert HasKey(t.rows, f.key);
  }

  /** Right after an acknowledgement of a delivery its triple has nothing waiting: no
      un-acknowledged delivery and no open history row. */
  lemma AcknowledgedTripleIsClosed(t: Table, d: AlertDeliveries.Deliveries, tr: AlertDeliveries.Triple, user: int,
                                   now: int)
    requires AlertDeliveries.Sound(d)
    ensures var t' := Apply(t, AckTriple(tr, user, now));
            var d' := AlertDeliveries.Apply(d, AlertDeliveries.CascadeAck(tr, user, now));
            && (forall id | id in t'.rows && TripleOf(t'.rows[id]) == tr :: t'.rows[id].status != "active")
            && (forall id | id in d' && AlertDeliveries.TripleOf(d'[id]) == tr :: d'[id].ackedAt.Some?)
            && (forall id | id in t.rows && TripleOf(t.rows[id]) != tr :: t'.rows[id] == t.rows[id])
  {
    AlertDeliveries.CascadeLeavesNothingUnacked(d, tr, user, now);
  }

  // ---- The actor of a row ----

  predicate Stamped(h: HistoryRow) {
    h.acknowledgedBy.Some? || h.acknowledgedAt.Some?
  }

  /** Only a closed row has an actor. */
  ghost predicate StampsOk(t: Table) {
    Sound(t) && forall id | id in t.rows && Stamped(t.rows[id]) :: t.rows[id].status != "active"
  }

  /** Every actor and time that was written is still there. */
  ghost predicate KeepsStamps(t: Table, t': Table) {
    forall id | id in t.rows && Stamped(t.rows[id]) ::
      && id in t'.rows
      && t'.rows[id].acknowledgedBy == t.rows[id].acknowledgedBy
      && t'.rows[id].acknowledgedAt == t.rows[id].acknowledgedAt
  }

  /** The update of a single row, on one that has an actor already, by somebody else or at
      another time. */
  predicate Overwrites(t: Table, s: Step) {
    && s.AckRow? && s.id in t.rows && t.rows[s.id].account == s.account
    && Admits(s.scope, t.rows[s.id]) && Stamped(t.rows[s.id])
    && !(t.rows[s.id].acknowledgedBy == Some(s.user) && t.rows[s.id].acknowledgedAt == Some(s.now))
  }

  /** Every statement keeps every actor but exactly that one. */
  lemma StepKeepsStampsIff(t: Table, s: Step)
    requires StampsOk(t) && WellFired(s)
    ensures StampsOk(Apply(t, s))
    ensures KeepsStamps(t, Apply(t, s)) <==> !Overwrites(t, s)
  {
    ApplyKeepsSound(t, s);
    if Overwrites(t, s) {
      assert Apply(t, s).rows[s.id] == AckedRow(t.rows[s.id], s.user, s.now);
    }
  }

  /** The table after the first n statements. */
  ghost function After(steps: seq<Step>, n: nat): Table
    requires n <= |steps|
  {
    Run(steps[..n])
  }

  lemma AfterNext(steps: seq<Step>, n: nat)
    requires n < |steps|
    ensures After(steps, n + 1) == Apply(After(steps, n), steps[n])
  {
    assert steps[..n + 1][..n] == steps[..n];
  }

  lemma {:induction false} StampsOkAfter(steps: seq<Step>, n: nat)
    requires n <= |steps| && forall i | 0 <= i < |steps| :: WellFired(steps[i])
    ensures StampsOk(After(steps, n))
  {
    if n > 0 {
      StampsOkAfter(steps, n - 1);
      AfterNext(steps, n - 1);
      StepKeepsStampsIff(After(steps, n - 1), steps[n - 1]);
    }
  }

  lemma {:induction false} StampsStay(steps: seq<Step>, i: nat, j: nat)
    requires i <= j <= |steps| && forall k | 0 <= k < |steps| :: WellFired(steps[k])
    requires forall k: nat | i <= k < j :: !Overwrites(After(steps, k), steps[k])
    ensures KeepsStamps(After(steps, i), After(steps, j))
    decreases j - i
  {
    if i < j {
      StampsStay(steps, i, j - 1);
      AfterNext(steps, j - 1);
      StampsOkAfter(steps, j - 1);
      StepKeepsStampsIff(After(steps, j - 1), steps[j - 1]);
    }
  }

  /** Over a whole run the actor and time of every row are written once exactly when no update
      of a single row lands on one that has been acknowledged. */
  lemma ActorsAreWrittenOnceIff(steps: seq<Step>)
    requires forall k | 0 <= k < |steps| :: WellFired(steps[k])
    ensures (forall i: nat, j: nat | i <= j <= |steps| :: KeepsStamps(After(steps, i), After(steps, j))) <==>
            (forall k: nat | k < |steps| :: !Overwrites(After(steps, k), steps[k]))
  {
    if forall k: nat | k < |steps| :: !Overwrites(After(steps, k), steps[k]) {
      forall i: nat, j: nat | i <= j <= |steps| ensures KeepsStamps(After(steps, i), After(steps, j)) {
        StampsStay(steps, i, j);
      }
    }
    if forall i: nat, j: nat | i <= j <= |steps| :: KeepsStamps(After(steps, i), After(steps, j)) {
      forall k: nat | k < |steps| ensures !Overwrites(After(steps, k), steps[k]) {
        var next := k + 1;
        assert KeepsStamps(After(steps, k), After(steps, next));
        AfterNext(steps, k);
        StampsOkAfter(steps, k);
        StepKeepsStampsIff(After(steps, k), steps[k]);
      }
    }
  }

  /** The history row's actor is not written once only: two acknowledgements that both
      read the row as open leave the second person's name on it. */
  lemma SecondReaderOverwritesActor(t: Table, id: int, first: int, second: int, now: int)
    requires id in t.rows && Acknowledgeable(t.rows, id, t.rows[id].account, Unrestricted) && first != second
    ensures var account := t.rows[id].account;
            var t1 := Apply(t, AckRow(id, account, Unrestricted, first, now));
            var t2 := Apply(t1, AckRow(id, account, Unrestricted, second, now + 1));
            && t1.rows[id].acknowledgedBy == Some(first)
            && !Acknowledgeable(t1.rows, id, account, Unrestricted)
            && t2.rows[id].acknowledgedBy == Some(second)
  {
  }

  // ---- The worst that was fired ----

  predicate FiredAs(fires: seq<Fire>, severity: string) {
    exists i | 0 <= i < |fires| :: fires[i].severity == severity
  }

  lemma {:induction false} TopRankIsWorst(fires: seq<Fire>)
    requires fires != [] && forall i | 0 <= i < |fires| :: Known(fires[i].severity)
    ensures TopRank(fires) == if FiredAs(fires, "critical") then 2 else if FiredAs(fires, "warning") then 1 else 0
  {
    var n := |fires| - 1;
    if n > 0 {
      TopRankIsWorst(fires[..n]);
    }
    forall severity
      ensures FiredAs(fires, severity) <==> FiredAs(fires[..n], severity) || fires[n].severity == severity
    {
      if i :| 0 <= i < |fires| && fires[i].severity == severity {
        assert i < n ==> fires[..n][i] == fires[i];
      }
      if i :| 0 <= i < n && fires[..n][i].severity == severity {
        assert fires[i].severity == severity;
      }
    }
  }

  /** Over every run, once every fire has run both statements: a row is critical exactly when some
      fire of its key was, and otherwise a warning exactly when some fire was; whatever was
      acknowledged, cleared or swept in between. */
  lemma RowIsAsSevereAsItsWorstFire(steps: seq<Step>, k: Key) returns (id: int)
    requires (forall i | 0 <= i < |steps| :: WellFired(steps[i])) && InsertedFirst(steps)
    requires multiset(Inserts(steps, k)) == multiset(Bumps(steps, k)) && Bumps(steps, k) != []
    ensures var fires, rows := Bumps(steps, k), Run(steps).rows;
            && OnlyRow(rows, k, id)
            && (rows[id].severity == "critical" <==> FiredAs(fires, "critical"))
            && (rows[id].severity == "warning" <==> !FiredAs(fires, "critical") && FiredAs(fires, "warning"))
            && (rows[id].severity == "info" <==> !FiredAs(fires, "critical") && !FiredAs(fires, "warning"))
  {
    id := HistoryRowSummarisesFires(steps, k);
    BumpsAreKnown(steps, k);
    TopRankIsWorst(Bumps(steps, k));
    RunRows(steps, k);
  }

  lemma {:induction false} BumpsAreKnown(steps: seq<Step>, k: Key)
    requires forall i | 0 <= i < |steps| :: WellFired(steps[i])
    ensures forall i | 0 <= i < |Bumps(steps, k)| :: Known(Bumps(steps, k)[i].severity)
  {
    if steps != [] {
      BumpsAreKnown(steps[..|steps| - 1], k);
    }
  }
}
