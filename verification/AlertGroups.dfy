/** The board as situations (adapters/storage/alerts.py, list_grouped_alerts and
    grouped_alert_member_ids): one row per alert type, vehicle and first segment of the
    detail, over the rows last seen since a cutoff. */
module AlertGroups {
  import opened Common
  import opened AlertTables
  import AlertQuery

  datatype GroupKey = GroupKey(alertType: string, vehicleId: string, subtype: string)

  /** The columns GROUP BY aggregates, as far as the board acts on them. */
  datatype Group = Group(deliveries: nat, unacked: nat, critical: nat, warning: nat, newestId: int)

  /** split_part(detail, ':', 1): up to the first colon, or everything. */
  function FirstSegment(detail: string): (r: string)
    ensures r <= detail && ':' !in r
    ensures r == detail || detail[|r|] == ':'
  {
    if detail == "" || detail[0] == ':' then "" else [detail[0]] + FirstSegment(detail[1..])
  }

  function KeyOf(h: HistoryRow): GroupKey {
    GroupKey(h.alertType, h.vehicleId, FirstSegment(h.lastDetail))
  }

  predicate Unacked(h: HistoryRow) {
    h.acknowledgedAt.None?
  }

  // ---- Which rows ----

  /** The caller's vehicle names, trimmed and lowered; None is an unscoped caller. */
  function Names(scope: Option<seq<string>>): (r: Option<set<string>>) {
    match scope
    case None => None
    case Some(raw) => Some(set n | n in raw && AlertQuery.Strip(n) != "" :: AlertQuery.Lower(AlertQuery.Strip(n)))
  }

  predicate InScope(scope: Option<seq<string>>, h: HistoryRow) {
    var names := Names(scope);
    names.Some? ==> AlertQuery.Lower(h.vehicleName) in names.value
  }

  function Window(hist: History, account: int, cutoff: int, scope: Option<seq<string>>): set<int> {
    set id | id in hist && hist[id].account == account && hist[id].lastSeen >= cutoff && InScope(scope, hist[id])
  }

  /** The ids behind one grouped row; this query takes no vehicle scope. */
  function MemberIds(hist: History, account: int, key: GroupKey, cutoff: int, onlyUnacked: bool): set<int> {
    set id | id in hist && hist[id].account == account && KeyOf(hist[id]) == key && hist[id].lastSeen >= cutoff
             && (onlyUnacked ==> Unacked(hist[id]))
  }

  // ---- GROUP BY, one row at a time ----

  function One(b: bool): nat {
    if b then 1 else 0
  }

  function Count(g: Group, id: int, h: HistoryRow): Group {
    Group(g.deliveries + 1, g.unacked + One(Unacked(h)), g.critical + One(h.severity == "critical"),
          g.warning + One(h.severity == "warning"), if id > g.newestId then id else g.newestId)
  }

  function First(id: int, h: HistoryRow): Group {
    Group(1, One(Unacked(h)), One(h.severity == "critical"), One(h.severity == "warning"), id)
  }

  ghost predicate Known(hist: History, rows: seq<int>) {
    forall i | 0 <= i < |rows| :: rows[i] in hist
  }

  ghost function GroupBy(hist: History, rows: seq<int>): map<GroupKey, Group>
    requires Known(hist, rows)
  {
    if rows == [] then map[]
    else
      var n := |rows| - 1;
      var id, before, key := rows[n], GroupBy(hist, rows[..n]), KeyOf(hist[rows[n]]);
      before[key := if key in before then Count(before[key], id, hist[id]) else First(id, hist[id])]
  }

  /** The severity the board shows for a group. */
  function Severity(g: Group): string {
    if g.critical > 0 then "critical" else if g.warning > 0 then "warning" else "info"
  }

  /** The rows of a window in whatever order the database visits them. */
  ghost predicate Visits(rows: seq<int>, ids: set<int>) {
    NoRepeat(rows) && Members(rows) == ids
  }

  // ---- Aggregates are member counts ----

  ghost function UnackedOf(hist: History, ids: set<int>): set<int>
    requires ids <= hist.Keys
  {
    set id | id in ids && Unacked(hist[id])
  }

  ghost function OfSeverity(hist: History, ids: set<int>, severity: string): set<int>
    requires ids <= hist.Keys
  {
    set id | id in ids && hist[id].severity == severity
  }

  ghost predicate Tallies(g: Group, hist: History, ids: set<int>)
    requires ids <= hist.Keys
  {
    && g.deliveries == |ids| && g.unacked == |UnackedOf(hist, ids)|
    && g.critical == |OfSeverity(hist, ids, "critical")|
    && g.warning == |OfSeverity(hist, ids, "warning")|
    && g.newestId in ids && (forall id | id in ids :: id <= g.newestId)
  }

  lemma OneMore(hist: History, ids: set<int>, id: int, severity: string)
    requires ids <= hist.Keys && id in hist && id !in ids
    ensures |UnackedOf(hist, ids + {id})| == |UnackedOf(hist, ids)| + One(Unacked(hist[id]))
    ensures |OfSeverity(hist, ids + {id}, severity)| ==
            |OfSeverity(hist, ids, severity)| + One(hist[id].severity == severity)
  {
    OneMoreUnacked(hist, ids, id);
    OneMoreOf(hist, ids, id, severity);
  }

  lemma OneMoreUnacked(hist: History, ids: set<int>, id: int)
    requires ids <= hist.Keys && id in hist && id !in ids
    ensures |UnackedOf(hist, ids + {id})| == |UnackedOf(hist, ids)| + One(Unacked(hist[id]))
  {
    if Unacked(hist[id]) {
      assert UnackedOf(hist, ids + {id}) == UnackedOf(hist, ids) + {id};
    } else {
      assert UnackedOf(hist, ids + {id}) == UnackedOf(hist, ids);
    }
  }

  lemma OneMoreOf(hist: History, ids: set<int>, id: int, severity: string)
    requires ids <= hist.Keys && id in hist && id !in ids
    ensures |OfSeverity(hist, ids + {id}, severity)| ==
            |OfSeverity(hist, ids, severity)| + One(hist[id].severity == severity)
  {
    if hist[id].severity == severity {
      assert OfSeverity(hist, ids + {id}, severity) == OfSeverity(hist, ids, severity) + {id};
    } else {
      assert OfSeverity(hist, ids + {id}, severity) == OfSeverity(hist, ids, severity);
    }
  }

  lemma CountTallies(g: Group, hist: History, ids: set<int>, id: int)
    requires ids <= hist.Keys && id in hist && id !in ids && Tallies(g, hist, ids)
    ensures Tallies(Count(g, id, hist[id]), hist, ids + {id})
  {
    OneMore(hist, ids, id, "critical");
    OneMore(hist, ids, id, "warning");
  }

  lemma FirstTallies(hist: History, id: int)
    requires id in hist
    ensures Tallies(First(id, hist[id]), hist, {id})
  {
    OneMore(hist, {}, id, "critical");
    OneMore(hist, {}, id, "warning");
    assert UnackedOf(hist, {}) == {} && OfSeverity(hist, {}, "critical") == {} && OfSeverity(hist, {}, "warning") == {};
    assert {} + {id} == {id};
  }

  /** The rows of one group among those visited so far. */
  ghost function Having(hist: History, rows: seq<int>, key: GroupKey): (ids: set<int>)
    requires Known(hist, rows)
    ensures ids <= hist.Keys
  {
    if rows == [] then {}
    else
      var n := |rows| - 1;
      Having(hist, rows[..n], key) + if KeyOf(hist[rows[n]]) == key then {rows[n]} else {}
  }

  lemma HavingIs(hist: History, rows: seq<int>, key: GroupKey, id: int)
    requires Known(hist, rows)
    ensures id in Having(hist, rows, key) <==> id in hist && id in rows && KeyOf(hist[id]) == key
  {
    if rows != [] {
      var n := |rows| - 1;
      assert rows == rows[..n] + [rows[n]];
      HavingIs(hist, rows[..n], key, id);
    }
  }

  lemma {:induction false} GroupByTallies(hist: History, rows: seq<int>, key: GroupKey)
    requires Known(hist, rows) && NoRepeat(rows)
    ensures key in GroupBy(hist, rows) <==> Having(hist, rows, key) != {}
    ensures key in GroupBy(hist, rows) ==> Tallies(GroupBy(hist, rows)[key], hist, Having(hist, rows, key))
  {
    if rows != [] {
      var n := |rows| - 1;
      var id := rows[n];
      var had := Having(hist, rows[..n], key);
      GroupByTallies(hist, rows[..n], key);
      HavingIs(hist, rows[..n], key, id);
      assert id !in rows[..n];
      AddToGroup(hist, had, id, GroupBy(hist, rows[..n]), key);
    }
  }

  lemma AddToGroup(hist: History, had: set<int>, id: int, before: map<GroupKey, Group>, key: GroupKey)
    requires had <= hist.Keys && id in hist && id !in had
    requires key in before <==> had != {}
    requires key in before ==> Tallies(before[key], hist, had)
    ensures Tallies(if key in before then Count(before[key], id, hist[id]) else First(id, hist[id]), hist, had + {id})
  {
    if key in before {
      CountTallies(before[key], hist, had, id);
    } else {
      FirstTallies(hist, id);
      assert had + {id} == {id};
    }
  }

  ghost function Visible(hist: History, account: int, key: GroupKey, cutoff: int,
                         scope: Option<seq<string>>): (ids: set<int>)
    ensures ids <= hist.Keys
  {
    set id | id in MemberIds(hist, account, key, cutoff, false) && InScope(scope, hist[id])
  }

  lemma GroupTallies(hist: History, account: int, cutoff: int, scope: Option<seq<string>>, rows: seq<int>,
                     key: GroupKey)
    requires Visits(rows, Window(hist, account, cutoff, scope))
    ensures Known(hist, rows)
    ensures key in GroupBy(hist, rows) <==> Visible(hist, account, key, cutoff, scope) != {}
    ensures key in GroupBy(hist, rows) ==>
        Tallies(GroupBy(hist, rows)[key], hist, Visible(hist, account, key, cutoff, scope))
  {
    forall i | 0 <= i < |rows| ensures rows[i] in hist {
      assert rows[i] in Members(rows);
    }
    GroupByTallies(hist, rows, key);
    forall id ensures id in Having(hist, rows, key) <==> id in Visible(hist, account, key, cutoff, scope) {
      HavingIs(hist, rows, key, id);
      assert id in rows <==> id in Members(rows);
    }
    assert Having(hist, rows, key) == Visible(hist, account, key, cutoff, scope);
  }

  // ---- What the board promises ----

  /** For an unscoped caller a grouped row's counts are the sizes of the id lists an
      acknowledgement of that row would resolve to, and its severity is the worst member's. */
  lemma GroupedCountsAreMembers(hist: History, account: int, cutoff: int, rows: seq<int>, key: GroupKey)
    requires Visits(rows, Window(hist, account, cutoff, None))
    ensures Known(hist, rows)
    ensures var members := MemberIds(hist, account, key, cutoff, false);
            && (key in GroupBy(hist, rows) <==> members != {})
            && (key in GroupBy(hist, rows) ==>
                  var g := GroupBy(hist, rows)[key];
                  && g.deliveries == |members|
                  && g.unacked == |MemberIds(hist, account, key, cutoff, true)|
                  && g.newestId in members
                  && Severity(g) == Worst(hist, members))
  {
    GroupTallies(hist, account, cutoff, None, rows, key);
    var members := MemberIds(hist, account, key, cutoff, false);
    assert forall id | id in members :: InScope(None, hist[id]);
    assert Visible(hist, account, key, cutoff, None) == members;
    assert UnackedOf(hist, members) == MemberIds(hist, account, key, cutoff, true);
    NoneOrSome(hist, members, "critical");
    NoneOrSome(hist, members, "warning");
  }

  /** The highest severity any of the rows has. */
  ghost function Worst(hist: History, ids: set<int>): string
    requires ids <= hist.Keys
  {
    if exists id | id in ids :: hist[id].severity == "critical" then "critical"
    else if exists id | id in ids :: hist[id].severity == "warning" then "warning"
    else "info"
  }

  lemma NoneOrSome(hist: History, ids: set<int>, severity: string)
    requires ids <= hist.Keys
    ensures |OfSeverity(hist, ids, severity)| > 0 <==> exists id | id in ids :: hist[id].severity == severity
  {
    if exists id | id in ids :: hist[id].severity == severity {
      var id :| id in ids && hist[id].severity == severity;
      assert id in OfSeverity(hist, ids, severity);
    } else {
      assert OfSeverity(hist, ids, severity) == {};
    }
  }

  /** The groups partition the window: each of its rows is a member of its own group and
      of no other, and that group is on the board. */
  lemma GroupsPartitionTheWindow(hist: History, account: int, cutoff: int, rows: seq<int>, id: int, key: GroupKey)
    requires Visits(rows, Window(hist, account, cutoff, None))
    ensures Known(hist, rows)
    ensures id in MemberIds(hist, account, key, cutoff, false) <==>
            id in Window(hist, account, cutoff, None) && KeyOf(hist[id]) == key
    ensures id in Window(hist, account, cutoff, None) ==> KeyOf(hist[id]) in GroupBy(hist, rows)
  {
    GroupTallies(hist, account, cutoff, None, rows, key);
    if id in Window(hist, account, cutoff, None) {
      GroupTallies(hist, account, cutoff, None, rows, KeyOf(hist[id]));
      assert id in Visible(hist, account, KeyOf(hist[id]), cutoff, None);
    }
  }

  /** A scoped caller is shown a count over their own vehicles, but the id list is not
      scoped: the two agree exactly when every member is within the scope. */
  lemma ScopedCountAgreesIff(hist: History, account: int, cutoff: int, scope: Option<seq<string>>, rows: seq<int>,
                             key: GroupKey)
    requires Visits(rows, Window(hist, account, cutoff, scope))
    ensures Known(hist, rows)
    ensures key in GroupBy(hist, rows) ==>
              var n, members := GroupBy(hist, rows)[key].deliveries, MemberIds(hist, account, key, cutoff, false);
              n <= |members| && (n == |members| <==> forall id | id in members :: InScope(scope, hist[id]))
  {
    GroupTallies(hist, account, cutoff, scope, rows, key);
    var members, mine := MemberIds(hist, account, key, cutoff, false), Visible(hist, account, key, cutoff, scope);
    assert members == mine + (members - mine);
    if forall id | id in members :: InScope(scope, hist[id]) {
      assert mine == members;
    } else {
      var id :| id in members && !InScope(scope, hist[id]);
      assert id in members - mine;
    }
  }

  // ---- Members and windows, field by field ----

  /** The first segment of a detail: everything before the first colon. */
  ghost predicate StartsWithSegment(detail: string, segment: string) {
    segment <= detail && ':' !in segment && (|segment| < |detail| ==> detail[|segment|] == ':')
  }

  lemma OneFirstSegment(detail: string, segment: string)
    ensures StartsWithSegment(detail, segment) <==> segment == FirstSegment(detail)
  {
    var first := FirstSegment(detail);
    if StartsWithSegment(detail, segment) {
      assert forall k | 0 <= k < |segment| :: detail[k] == segment[k] && detail[k] != ':';
      assert forall k | 0 <= k < |first| :: detail[k] == first[k] && detail[k] != ':';
      assert |first| == |segment|;
    }
  }

  /** The members of a group: rows of the account and of this type and vehicle, with this first
      segment, last seen at the cutoff or later; on request only those without an acknowledgement. */
  lemma MembersInFields(hist: History, account: int, key: GroupKey, cutoff: int, id: int)
    ensures id in MemberIds(hist, account, key, cutoff, false) <==>
            && id in hist && hist[id].account == account && cutoff <= hist[id].lastSeen
            && hist[id].alertType == key.alertType && hist[id].vehicleId == key.vehicleId
            && StartsWithSegment(hist[id].lastDetail, key.subtype)
    ensures id in MemberIds(hist, account, key, cutoff, true) <==>
            id in MemberIds(hist, account, key, cutoff, false) && hist[id].acknowledgedAt == None
  {
    if id in hist {
      OneFirstSegment(hist[id].lastDetail, key.subtype);
    }
  }

  /** The rows a caller sees: theirs by account and by time, and by the name of the vehicle in any
      case, if the caller has a scope; blank names admit nothing. */
  lemma WindowInFields(hist: History, account: int, cutoff: int, names: seq<string>, id: int)
    ensures id in Window(hist, account, cutoff, None) <==>
            id in hist && hist[id].account == account && cutoff <= hist[id].lastSeen
    ensures id in Window(hist, account, cutoff, Some(names)) <==>
            && id in Window(hist, account, cutoff, None)
            && exists i | 0 <= i < |names| ::
                 AlertQuery.Strip(names[i]) != ""
                 && AlertQuery.Lower(AlertQuery.Strip(names[i])) == AlertQuery.Lower(hist[id].vehicleName)
  {
    if id in hist {
      if i :| 0 <= i < |names| && AlertQuery.Strip(names[i]) != ""
              && AlertQuery.Lower(AlertQuery.Strip(names[i])) == AlertQuery.Lower(hist[id].vehicleName) {
        assert names[i] in names;
      }
    }
  }

  lemma SeverityIsWorst(hist: History, ids: set<int>, g: Group)
    requires ids <= hist.Keys && Tallies(g, hist, ids)
    ensures Severity(g) == Worst(hist, ids)
  {
    NoneOrSome(hist, ids, "critical");
    NoneOrSome(hist, ids, "warning");
  }

  lemma UnackedIs(hist: History, ids: set<int>)
    requires ids <= hist.Keys
    ensures UnackedOf(hist, ids) == set id | id in ids && hist[id].acknowledgedAt == None
  {
    forall id | id in ids ensures Unacked(hist[id]) <==> hist[id].acknowledgedAt == None {
    }
  }

  /** For any caller a group on the board counts what they see of it: the rows, those without an
      acknowledgement, and the newest of them; and shows the worst severity among them. */
  lemma BoardCountsWhatIsSeen(hist: History, account: int, cutoff: int, scope: Option<seq<string>>, rows: seq<int>,
                              key: GroupKey)
    requires Visits(rows, Window(hist, account, cutoff, scope))
    ensures Known(hist, rows)
    ensures var seen := set id | id in Window(hist, account, cutoff, scope) && KeyOf(hist[id]) == key;
            && (key in GroupBy(hist, rows) <==> seen != {})
            && (key in GroupBy(hist, rows) ==>
                  var g := GroupBy(hist, rows)[key];
                  && g.deliveries == |seen|
                  && g.unacked == |set id | id in seen && hist[id].acknowledgedAt == None|
                  && g.newestId in seen && (forall id | id in seen :: id <= g.newestId)
                  && Severity(g) == Worst(hist, seen))
  {
    GroupTallies(hist, account, cutoff, scope, rows, key);
    var seen := Visible(hist, account, key, cutoff, scope);
    assert seen == set id | id in Window(hist, account, cutoff, scope) && KeyOf(hist[id]) == key;
    UnackedIs(hist, seen);
    if key in GroupBy(hist, rows) {
      SeverityIsWorst(hist, seen, GroupBy(hist, rows)[key]);
    }
  }
}
