/** Editing a watch on a metric: the route reads a trigger, judges the pair that will exist, and
    writes only if the pair it read is still there (adapters/storage/alert_triggers.py,
    capabilities/alerting/triggers/router.py). */
module AlertTriggers {
  import opened Common

  datatype Trigger = Trigger(account: int, owner: int, metric: string, threshold: real, enabled: bool,
    channels: string, vehicles: string)

  type Triggers = map<int, Trigger>

  /** The band of thresholds each known metric accepts. */
  type Catalog = map<string, (real, real)>

  predicate Valid(catalog: Catalog, metric: string, threshold: real) {
    metric in catalog && catalog[metric].0 <= threshold <= catalog[metric].1
  }

  datatype Patch = Patch(metric: Option<string>, threshold: Option<real>, enabled: Option<bool>,
    channels: Option<string>, vehicles: Option<string>)

  function Or<T>(o: Option<T>, d: T): T {
    if o.Some? then o.value else d
  }

  predicate IsEmpty(p: Patch) {
    p.metric.None? && p.threshold.None? && p.enabled.None? && p.channels.None? && p.vehicles.None?
  }

  /** Whether the request changes the pair, and so has to judge it. */
  predicate TouchesPair(p: Patch) {
    p.metric.Some? || p.threshold.Some?
  }

  function Patched(t: Trigger, p: Patch): Trigger {
    t.(metric := Or(p.metric, t.metric), threshold := Or(p.threshold, t.threshold), enabled := Or(p.enabled, t.enabled),
       channels := Or(p.channels, t.channels), vehicles := Or(p.vehicles, t.vehicles))
  }

  predicate Mine(rows: Triggers, id: int, account: int, owner: int) {
    id in rows && rows[id].account == account && rows[id].owner == owner
  }

  /** Whether the UPDATE finds its row: the owner's, and the seen pair where one is given. */
  predicate Matches(rows: Triggers, id: int, account: int, owner: int, p: Patch, seen: Option<(string, real)>) {
    && !IsEmpty(p) && Mine(rows, id, account, owner)
    && (seen.Some? ==> rows[id].metric == seen.value.0 && rows[id].threshold == seen.value.1)
  }

  function UpdatedRows(rows: Triggers, id: int, account: int, owner: int, p: Patch,
                       seen: Option<(string, real)>): Triggers {
    if Matches(rows, id, account, owner, p, seen) then rows[id := Patched(rows[id], p)] else rows
  }

  class TriggerTable {
    var rows: Triggers
    var nextId: int

    ghost predicate IdsBelow()
      reads this
    {
      forall id | id in rows :: id < nextId
    }

    constructor ()
      ensures IdsBelow() && rows == map[]
    {
      rows, nextId := map[], 1;
    }

    method CreateAlertTrigger(account: int, owner: int, metric: string, threshold: real, channels: string,
                              vehicles: string)
      returns (id: int)
      requires IdsBelow()
      modifies this
      ensures IdsBelow() && id !in old(rows)
      ensures rows == old(rows)[id := Trigger(account, owner, metric, threshold, true, channels, vehicles)]
    {
      id := nextId;
      rows := rows[id := Trigger(account, owner, metric, threshold, true, channels, vehicles)];
      nextId := nextId + 1;
    }

    /** The SET list is built field by field, and nothing is written for an empty patch. */
    method UpdateAlertTrigger(id: int, account: int, owner: int, p: Patch, seen: Option<(string, real)>)
      returns (ok: bool)
      requires IdsBelow()
      modifies this`rows
      ensures IdsBelow()
      ensures ok == Matches(old(rows), id, account, owner, p, seen)
      ensures rows == UpdatedRows(old(rows), id, account, owner, p, seen)
      ensures ok ==> id in old(rows) && old(rows)[id].account == account && old(rows)[id].owner == owner
      ensures !ok ==> rows == old(rows)
      ensures rows.Keys == old(rows).Keys && forall i | i in rows && i != id :: rows[i] == old(rows)[i]
    {
      if IsEmpty(p) {
        return false;
      }
      if id !in rows || rows[id].account != account || rows[id].owner != owner {
        return false;
      }
      var row := rows[id];
      if seen.Some? && (row.metric != seen.value.0 || row.threshold != seen.value.1) {
        return false;
      }
      if p.metric.Some? {
        row := row.(metric := p.metric.value);
      }
      if p.threshold.Some? {
        row := row.(threshold := p.threshold.value);
      }
      if p.enabled.Some? {
        row := row.(enabled := p.enabled.value);
      }
      if p.channels.Some? {
        row := row.(channels := p.channels.value);
      }
      if p.vehicles.Some? {
        row := row.(vehicles := p.vehicles.value);
      }
      rows := rows[id := row];
      return true;
    }

    method DeleteAlertTrigger(account: int, owner: int, id: int) returns (ok: bool)
      requires IdsBelow()
      modifies this`rows
      ensures IdsBelow()
      ensures ok <==> id in old(rows) && old(rows)[id].account == account && old(rows)[id].owner == owner
      ensures rows == if ok then old(rows) - {id} else old(rows)
    {
      ok := id in rows && rows[id].account == account && rows[id].owner == owner;
      if ok {
        rows := rows - {id};
      }
    }
  }

  // ---- Requests running beside each other ----

  /** A PATCH in flight: it has judged the pair (where it touches it) and will write next. */
  datatype Request = Idle | Judged(id: int, account: int, owner: int, patch: Patch, read: Option<(string, real)>)

  datatype World = World(catalog: Catalog, rows: Triggers, requests: seq<Request>)

  datatype Step =
    | Create(id: int, t: Trigger)
    | Read(k: nat, id: int, account: int, owner: int, patch: Patch)
    | Write(k: nat)
    | Remove(id: int)

  predicate Possible(w: World, s: Step) {
    match s
    case Create(id, t) => id !in w.rows && Valid(w.catalog, t.metric, t.threshold)
    case Read(k, id, account, owner, patch) =>
      && k < |w.requests| && w.requests[k].Idle?
      && (TouchesPair(patch) ==>
            Mine(w.rows, id, account, owner)
            && Valid(w.catalog, Patched(w.rows[id], patch).metric, Patched(w.rows[id], patch).threshold))
    case Write(k) => k < |w.requests| && w.requests[k].Judged?
    case Remove(_) => true
  }

  function Apply(w: World, s: Step): World
    requires Possible(w, s)
  {
    match s
    case Create(id, t) => w.(rows := w.rows[id := t])
    case Read(k, id, account, owner, patch) =>
      var read := if TouchesPair(patch) then Some((w.rows[id].metric, w.rows[id].threshold)) else None;
      w.(requests := w.requests[k := Judged(id, account, owner, patch, read)])
    case Write(k) =>
      var r := w.requests[k];
      w.(rows := UpdatedRows(w.rows, r.id, r.account, r.owner, r.patch, r.read), requests := w.requests[k := Idle])
    case Remove(id) => w.(rows := w.rows - {id})
  }

  ghost predicate PossibleRun(w: World, steps: seq<Step>)
    decreases |steps|
  {
    steps == [] || (Possible(w, steps[0]) && PossibleRun(Apply(w, steps[0]), steps[1..]))
  }

  ghost function Run(w: World, steps: seq<Step>): World
    requires PossibleRun(w, steps)
    decreases |steps|
  {
    if steps == [] then w else Run(Apply(w, steps[0]), steps[1..])
  }

  /** What a request in flight was told yes to. */
  predicate JudgedWell(catalog: Catalog, r: Request) {
    r.Judged? ==>
      && (TouchesPair(r.patch) <==> r.read.Some?)
      && (r.read.Some? ==> Valid(catalog, Or(r.patch.metric, r.read.value.0), Or(r.patch.threshold, r.read.value.1)))
  }

  ghost predicate Inv(w: World) {
    && (forall id | id in w.rows :: Valid(w.catalog, w.rows[id].metric, w.rows[id].threshold))
    && (forall k: nat | k < |w.requests| :: JudgedWell(w.catalog, w.requests[k]))
  }

  lemma StepKeepsInv(w: World, s: Step)
    requires Inv(w) && Possible(w, s)
    ensures Inv(Apply(w, s)) && Apply(w, s).catalog == w.catalog
  {
  }

  /** However many edits interleave, no row ever holds a pair that nobody judged. */
  lemma {:induction false} EveryPairIsValid(w: World, steps: seq<Step>)
    requires Inv(w) && PossibleRun(w, steps)
    ensures Inv(Run(w, steps)) && Run(w, steps).catalog == w.catalog
    decreases |steps|
  {
    if steps != [] {
      StepKeepsInv(w, steps[0]);
      EveryPairIsValid(Apply(w, steps[0]), steps[1..]);
    }
  }

  /** A write lands exactly when the row is still the owner's with the pair that was read, and
      then stores the pair that was judged. */
  lemma WriteLandsIff(w: World, k: nat)
    requires Inv(w) && Possible(w, Write(k)) && w.requests[k].read.Some?
    ensures var r := w.requests[k];
            (Mine(w.rows, r.id, r.account, r.owner)
             && (w.rows[r.id].metric, w.rows[r.id].threshold) == r.read.value) <==>
            Matches(w.rows, r.id, r.account, r.owner, r.patch, r.read)
    ensures var r := w.requests[k];
            var w' := Apply(w, Write(k));
            if Matches(w.rows, r.id, r.account, r.owner, r.patch, r.read)
            then w'.rows[r.id].metric == Or(r.patch.metric, r.read.value.0)
                 && w'.rows[r.id].threshold == Or(r.patch.threshold, r.read.value.1)
                 && Valid(w.catalog, w'.rows[r.id].metric, w'.rows[r.id].threshold)
            else w'.rows == w.rows
  {
    assert JudgedWell(w.catalog, w.requests[k]);
  }

  /** Two edits of the two halves, both judged against the same old pair: at most one lands. */
  lemma DisjointEditsCannotBothLand(w: World, j: nat, k: nat)
    requires Inv(w) && j != k && Possible(w, Write(j)) && Possible(w, Write(k))
    requires var r, q := w.requests[j], w.requests[k];
             && r.id == q.id && r.read.Some? && q.read.Some? && r.read == q.read
             && Matches(w.rows, r.id, r.account, r.owner, r.patch, r.read)
             && (Or(r.patch.metric, r.read.value.0), Or(r.patch.threshold, r.read.value.1)) != r.read.value
    ensures var w1 := Apply(w, Write(j));
            var q := w.requests[k];
            Possible(w1, Write(k)) && w1.requests[k] == q
            && !Matches(w1.rows, q.id, q.account, q.owner, q.patch, q.read)
            && Apply(w1, Write(k)).rows == w1.rows
  {
  }

  /** Without the guard, two valid edits of one trigger leave oil pressure at 45 psi, outside
      its band. */
  lemma WithoutTheGuardAPairGoesBad()
    ensures var catalog: Catalog := map["fuel_pct" := (5.0, 60.0), "oil_psi" := (5.0, 40.0)];
            var row := Trigger(1, 2, "fuel_pct", 30.0, true, "", "");
            var p := Patch(None, Some(45.0), None, None, None);
            var q := Patch(Some("oil_psi"), None, None, None, None);
            && Valid(catalog, Patched(row, p).metric, Patched(row, p).threshold)
            && Valid(catalog, Patched(row, q).metric, Patched(row, q).threshold)
            && var after := UpdatedRows(UpdatedRows(map[9 := row], 9, 1, 2, p, None), 9, 1, 2, q, None);
               9 in after && !Valid(catalog, after[9].metric, after[9].threshold)
  {
    assert |"fuel_pct"| != |"oil_psi"|;
  }

  // ---- Field by field ----

  /** The band of a metric includes both its ends; an unknown metric accepts nothing. */
  lemma BandsAreClosed(catalog: Catalog, metric: string, low: real, high: real, threshold: real)
    requires metric in catalog ==> catalog[metric] == (low, high)
    ensures metric !in catalog ==> !Valid(catalog, metric, threshold)
    ensures metric in catalog && (threshold < low || threshold > high) ==> !Valid(catalog, metric, threshold)
    ensures metric in catalog && (low < threshold < high || low == threshold <= high || low <= threshold == high) ==>
              Valid(catalog, metric, threshold)
  {
  }

  /** The fields given are written, the others kept, the row stays its owner's; and it is found
      exactly when anything is given at all, the row is theirs, and the pair is the one seen. */
  lemma PatchInFields(rows: Triggers, id: int, account: int, owner: int, p: Patch, seen: Option<(string, real)>)
    ensures var found := && id in rows && rows[id].account == account && rows[id].owner == owner
                         && (p.metric.Some? || p.threshold.Some? || p.enabled.Some? || p.channels.Some?
                             || p.vehicles.Some?)
                         && (seen.None? || seen == Some((rows[id].metric, rows[id].threshold)));
            var rows' := UpdatedRows(rows, id, account, owner, p, seen);
            && (Matches(rows, id, account, owner, p, seen) <==> found)
            && (!found ==> rows' == rows)
            && rows'.Keys == rows.Keys && (forall i | i in rows && i != id :: rows'[i] == rows[i])
            && (found ==>
                  var t, t' := rows[id], rows'[id];
                  && t'.account == account && t'.owner == owner
                  && (p.metric == None ==> t'.metric == t.metric)
                  && (p.metric != None ==> Some(t'.metric) == p.metric)
                  && (p.threshold == None ==> t'.threshold == t.threshold)
                  && (p.threshold != None ==> Some(t'.threshold) == p.threshold)
                  && (p.enabled == None ==> t'.enabled == t.enabled)
                  && (p.enabled != None ==> Some(t'.enabled) == p.enabled)
                  && (p.channels == None ==> t'.channels == t.channels)
                  && (p.channels != None ==> Some(t'.channels) == p.channels)
                  && (p.vehicles == None ==> t'.vehicles == t.vehicles)
                  && (p.vehicles != None ==> Some(t'.vehicles) == p.vehicles))
  {
  }

  /** A request that changes metric or threshold goes on exactly when the row is the owner's and
      the pair that will exist is in its band, and remembers the pair it read; any other request
      goes on at once and remembers none. Then it writes, and is done. */
  lemma RequestsInFields(w: World, k: nat, id: int, account: int, owner: int, p: Patch)
    requires k < |w.requests| && w.requests[k].Idle?
    ensures var judges := p.metric.Some? || p.threshold.Some?;
            && (!judges ==>
                  && Possible(w, Read(k, id, account, owner, p))
                  && Apply(w, Read(k, id, account, owner, p)) ==
                     w.(requests := w.requests[k := Judged(id, account, owner, p, None)]))
            && (judges ==>
                  (Possible(w, Read(k, id, account, owner, p)) <==>
                   && id in w.rows && w.rows[id].account == account && w.rows[id].owner == owner
                   && Valid(w.catalog, if p.metric.Some? then p.metric.value else w.rows[id].metric,
                            if p.threshold.Some? then p.threshold.value else w.rows[id].threshold)))
            && (judges && Possible(w, Read(k, id, account, owner, p)) ==>
                  Apply(w, Read(k, id, account, owner, p)) ==
                  w.(requests :=
                       w.requests[k := Judged(id, account, owner, p, Some((w.rows[id].metric, w.rows[id].threshold)))]))
  {
  }

  lemma WritesInFields(w: World, k: nat)
    requires k < |w.requests| && w.requests[k].Judged?
    ensures var r := w.requests[k];
            && Possible(w, Write(k))
            && Apply(w, Write(k)) ==
               w.(rows := UpdatedRows(w.rows, r.id, r.account, r.owner, r.patch, r.read),
                  requests := w.requests[k := Idle])
  {
  }

  /** A trigger is created under a new id with a pair in its band; removing one takes just that. */
  lemma RowsComeAndGo(w: World, id: int, t: Trigger)
    ensures Possible(w, Create(id, t)) <==> id !in w.rows && Valid(w.catalog, t.metric, t.threshold)
    ensures Possible(w, Create(id, t)) ==> Apply(w, Create(id, t)) == w.(rows := w.rows[id := t])
    ensures Possible(w, Remove(id)) && Apply(w, Remove(id)) == w.(rows := w.rows - {id})
  {
  }
}
