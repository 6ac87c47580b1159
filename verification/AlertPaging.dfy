/** Sorting and paging of the board (adapters/storage/alerts.py, _order_by and the paged
    query). A database may return any arrangement its ORDER BY allows, and each page is a
    separate query; the id tie-break is what makes the pages fit together. */
module AlertPaging {
  import opened Common
  import opened AlertTables
  import opened AlertQuery

  datatype Column = Id | SevRank | VehicleName | AlertType | LastSeen | FirstSeen | AckedAt | Occurrences

  datatype Key = Key(column: Column, ascending: bool)

  /** The allow-list: the key columns a sort name stands for. */
  function SortColumn(name: string): Option<Column> {
    if name == "id" then Some(Id)
    else if name == "severity" then Some(SevRank)
    else if name == "vehicle_name" then Some(VehicleName)
    else if name == "alert_type" then Some(AlertType)
    else if name == "last_seen" then Some(LastSeen)
    else if name == "first_seen" then Some(FirstSeen)
    else if name == "acknowledged_at" then Some(AckedAt)
    else if name == "occurrence_count" then Some(Occurrences)
    else None
  }

  /** ORDER BY for the board: the last key is always the id, newest first. */
  function OrderBy(sortBy: Option<string>, sortDir: string): (keys: seq<Key>)
    ensures keys != [] && keys[|keys| - 1] == Key(Id, false)
  {
    match SortColumn(if sortBy.Some? then sortBy.value else "")
    case None => [Key(SevRank, true), Key(LastSeen, false), Key(Id, false)]
    case Some(c) => [Key(c, Lower(sortDir) == "asc"), Key(Id, false)]
  }

  // ---- Comparing rows ----

  function SeverityRank(severity: string): int {
    if severity == "critical" then 0 else if severity == "warning" then 1
    else if severity == "info" then 2 else 3
  }

  function KeyValue(c: Column, id: int, h: HistoryRow): Value {
    match c
    case Id => Num(id)
    case SevRank => Num(SeverityRank(h.severity))
    case VehicleName => Text(Lower(h.vehicleName))
    case AlertType => Text(h.alertType)
    case LastSeen => Num(h.lastSeen)
    case FirstSeen => Num(h.firstSeen)
    case AckedAt => OptNum(h.acknowledgedAt)
    case Occurrences => Num(h.occurrences)
  }

  predicate TextLess(a: string, b: string) {
    b != "" && (a == "" || a[0] < b[0] || (a[0] == b[0] && TextLess(a[1..], b[1..])))
  }

  /** Ascending order of column values; NULL sorts as the greatest. */
  predicate ValueLess(v: Value, w: Value) {
    match (v, w)
    case (Num(a), Num(b)) => a < b
    case (Text(a), Text(b)) => TextLess(a, b)
    case (Num(_), Text(_)) => true
    case (Null, _) => false
    case (_, Null) => true
    case _ => false
  }

  predicate KeyLess(k: Key, v: Value, w: Value) {
    if k.ascending then ValueLess(v, w) else ValueLess(w, v)
  }

  /** Row a comes before row b. */
  predicate Before(keys: seq<Key>, hist: History, a: int, b: int)
    requires a in hist && b in hist
  {
    keys != [] &&
    var k := keys[0];
    var v, w := KeyValue(k.column, a, hist[a]), KeyValue(k.column, b, hist[b]);
    KeyLess(k, v, w) || (v == w && Before(keys[1..], hist, a, b))
  }

  lemma TextOrder(a: string, b: string, c: string)
    ensures !TextLess(a, a)
    ensures TextLess(a, b) || TextLess(b, a) || a == b
    ensures TextLess(a, b) && TextLess(b, c) ==> TextLess(a, c)
    ensures !(TextLess(a, b) && TextLess(b, a))
    decreases |a| + |b| + |c|
  {
    if a != "" && b != "" && a[0] == b[0] {
      assert a == [a[0]] + a[1..] && b == [b[0]] + b[1..];
      TextOrder(a[1..], b[1..], if c != "" then c[1..] else "");
    } else if a != "" {
      TextOrder(a[1..], "", "");
    }
  }

  lemma ValueOrder(a: Value, b: Value, c: Value)
    ensures !ValueLess(a, a)
    ensures ValueLess(a, b) || ValueLess(b, a) || a == b
    ensures ValueLess(a, b) && ValueLess(b, c) ==> ValueLess(a, c)
    ensures !(ValueLess(a, b) && ValueLess(b, a))
  {
    if a.Text? && b.Text? {
      TextOrder(a.s, b.s, if c.Text? then c.s else "");
    } else if a.Text? {
      TextOrder(a.s, "", "");
    }
  }

  /** Before is a strict order, whatever the keys. */
  lemma BeforeIsStrict(keys: seq<Key>, hist: History, a: int, b: int, c: int)
    requires a in hist && b in hist && c in hist
    ensures !Before(keys, hist, a, a)
    ensures Before(keys, hist, a, b) && Before(keys, hist, b, c) ==> Before(keys, hist, a, c)
    ensures !(Before(keys, hist, a, b) && Before(keys, hist, b, a))
  {
    if keys != [] {
      var col := keys[0].column;
      var u, v, w := KeyValue(col, a, hist[a]), KeyValue(col, b, hist[b]), KeyValue(col, c, hist[c]);
      ValueOrder(u, v, w);
      ValueOrder(w, v, u);
      BeforeIsStrict(keys[1..], hist, a, b, c);
    }
  }

  /** When the last key is the id it is total: two rows never tie. */
  lemma BeforeIsTotal(keys: seq<Key>, hist: History, a: int, b: int)
    requires a in hist && b in hist && a != b
    requires keys != [] && keys[|keys| - 1].column == Id
    ensures Before(keys, hist, a, b) || Before(keys, hist, b, a)
  {
    var col := keys[0].column;
    var u, v := KeyValue(col, a, hist[a]), KeyValue(col, b, hist[b]);
    ValueOrder(u, v, u);
    if u == v {
      assert |keys| > 1;
      assert keys[1..][|keys| - 2] == keys[|keys| - 1];
      BeforeIsTotal(keys[1..], hist, a, b);
    }
  }

  // ---- Listings and pages ----

  /** An arrangement of the rows the ORDER BY allows: nothing later belongs before
      anything earlier. */
  ghost predicate Listing(s: seq<int>, ids: set<int>, keys: seq<Key>, hist: History)
    requires ids <= hist.Keys
  {
    && NoRepeat(s) && Members(s) == ids
    && (forall i, j | 0 <= i < j < |s| :: s[i] in ids && s[j] in ids && !Before(keys, hist, s[j], s[i]))
  }

  function Page(s: seq<int>, limit: nat, offset: nat): seq<int> {
    var lo := if offset <= |s| then offset else |s|;
    var hi := if offset + limit <= |s| then offset + limit else |s|;
    s[lo..hi]
  }

  /** What LIMIT and OFFSET may return: a slice of some allowed arrangement. */
  ghost predicate PageResult(r: seq<int>, limit: nat, offset: nat, ids: set<int>, keys: seq<Key>, hist: History)
    requires ids <= hist.Keys
  {
    exists s :: Listing(s, ids, keys, hist) && r == Page(s, limit, offset)
  }

  lemma ListingTail(s: seq<int>, ids: set<int>, keys: seq<Key>, hist: History)
    requires ids <= hist.Keys && Listing(s, ids, keys, hist) && s != []
    ensures s[0] in ids && Listing(s[1..], ids - {s[0]}, keys, hist)
  {
    assert s[0] in Members(s);
    assert s == [s[0]] + s[1..];
    var rest := s[1..];
    forall x ensures x in Members(rest) <==> x in ids - {s[0]} {
      if x in rest {
        var k :| 0 <= k < |rest| && rest[k] == x;
        assert s[k + 1] == x;
        assert x in Members(s);
      } else if x in ids {
        assert x in Members(s);
      }
    }
    forall i, j | 0 <= i < j < |rest|
      ensures rest[i] in ids - {s[0]} && rest[j] in ids - {s[0]}
      ensures !Before(keys, hist, rest[j], rest[i])
    {
      assert s[i + 1] == rest[i] && s[j + 1] == rest[j];
      assert rest[i] in Members(rest) && rest[j] in Members(rest);
    }
  }

  lemma FirstIsLeast(s: seq<int>, ids: set<int>, keys: seq<Key>, hist: History, x: int)
    requires ids <= hist.Keys && Listing(s, ids, keys, hist) && s != [] && x in ids && x != s[0]
    ensures s[0] in ids && !Before(keys, hist, x, s[0])
  {
    assert x in Members(s);
    var j :| 0 <= j < |s| && s[j] == x;
    assert s[0] in ids;
  }

  lemma NoMembers(s: seq<int>)
    ensures Members(s) == {} <==> s == []
  {
    if s != [] {
      assert s[0] in Members(s);
    }
  }

  /** With the id tie-break there is one arrangement only. */
  lemma {:induction false} ListingIsUnique(s: seq<int>, t: seq<int>, ids: set<int>, keys: seq<Key>, hist: History)
    requires ids <= hist.Keys && keys != [] && keys[|keys| - 1].column == Id
    requires Listing(s, ids, keys, hist) && Listing(t, ids, keys, hist)
    ensures s == t
  {
    if s == [] || t == [] {
      NoMembers(s);
      NoMembers(t);
    } else {
      ListingTail(s, ids, keys, hist);
      ListingTail(t, ids, keys, hist);
      if s[0] != t[0] {
        FirstIsLeast(s, ids, keys, hist, t[0]);
        FirstIsLeast(t, ids, keys, hist, s[0]);
        BeforeIsTotal(keys, hist, s[0], t[0]);
        assert false;
      }
      ListingIsUnique(s[1..], t[1..], ids - {s[0]}, keys, hist);
      assert s == [s[0]] + s[1..] && t == [t[0]] + t[1..];
    }
  }

  /** Of finitely many rows one comes before all others. */
  lemma {:induction false} FirstRow(ids: set<int>, keys: seq<Key>, hist: History) returns (m: int)
    requires ids != {} && ids <= hist.Keys && keys != [] && keys[|keys| - 1].column == Id
    ensures m in ids && forall x | x in ids && x != m :: Before(keys, hist, m, x)
    decreases ids
  {
    var y := SomeMember(ids);
    if ids == {y} {
      m := y;
    } else {
      var l := FirstRow(ids - {y}, keys, hist);
      BeforeIsTotal(keys, hist, l, y);
      m := if Before(keys, hist, l, y) then l else y;
      forall x | x in ids && x != m ensures Before(keys, hist, m, x) {
        if x != y && x != l {
          assert x in ids - {y};
          BeforeIsStrict(keys, hist, m, l, x);
        }
      }
    }
  }

  lemma ListingFrom(m: int, rest: seq<int>, ids: set<int>, keys: seq<Key>, hist: History)
    requires ids <= hist.Keys && m in ids && Listing(rest, ids - {m}, keys, hist)
    requires forall x | x in ids && x != m :: Before(keys, hist, m, x)
    ensures Listing([m] + rest, ids, keys, hist)
  {
    var s := [m] + rest;
    forall j | 0 <= j < |rest| ensures rest[j] in ids && rest[j] != m && !Before(keys, hist, rest[j], m) {
      assert rest[j] in Members(rest);
      BeforeIsStrict(keys, hist, m, rest[j], m);
    }
    forall x ensures x in Members(s) <==> x in ids {
      assert s[0] == m && (x in rest <==> x in Members(rest));
    }
    forall i, j | 0 <= i < j < |s|
      ensures s[i] != s[j] && s[i] in ids && s[j] in ids && !Before(keys, hist, s[j], s[i])
    {
      assert s[j] == rest[j - 1] && (i > 0 ==> s[i] == rest[i - 1]);
    }
  }

  /** Every finite set of rows can be listed in that order. */
  lemma {:induction false} ListingExists(ids: set<int>, keys: seq<Key>, hist: History) returns (s: seq<int>)
    requires ids <= hist.Keys && keys != [] && keys[|keys| - 1].column == Id
    ensures Listing(s, ids, keys, hist)
    decreases ids
  {
    if ids == {} {
      s := [];
      NoMembers(s);
    } else {
      var m := FirstRow(ids, keys, hist);
      var rest := ListingExists(ids - {m}, keys, hist);
      ListingFrom(m, rest, ids, keys, hist);
      s := [m] + rest;
    }
  }

  /** So each page query, for every sort name, direction, page size and offset, has one possible
      answer. */
  lemma PageIsDetermined(limit: nat, offset: nat, sortBy: Option<string>, sortDir: string, ids: set<int>, hist: History)
    returns (r: seq<int>)
    requires ids <= hist.Keys
    ensures PageResult(r, limit, offset, ids, OrderBy(sortBy, sortDir), hist)
    ensures forall q | PageResult(q, limit, offset, ids, OrderBy(sortBy, sortDir), hist) :: q == r
  {
    var keys := OrderBy(sortBy, sortDir);
    var s := ListingExists(ids, keys, hist);
    r := Page(s, limit, offset);
    forall q | PageResult(q, limit, offset, ids, keys, hist) ensures q == r {
      var t :| Listing(t, ids, keys, hist) && q == Page(t, limit, offset);
      ListingIsUnique(s, t, ids, keys, hist);
    }
  }

  ghost function Concat(pages: seq<seq<int>>): seq<int> {
    if pages == [] then [] else Concat(pages[..|pages| - 1]) + pages[|pages| - 1]
  }

  /** The k-th page of a run of queries with one page size. */
  ghost predicate NthPage(r: seq<int>, k: nat, limit: nat, ids: set<int>, keys: seq<Key>, hist: History)
    requires ids <= hist.Keys
  {
    PageResult(r, limit, k * limit, ids, keys, hist)
  }

  lemma NthPageOf(r: seq<int>, k: nat, limit: nat, s: seq<int>, ids: set<int>, keys: seq<Key>, hist: History)
    requires ids <= hist.Keys && keys != [] && keys[|keys| - 1].column == Id
    requires Listing(s, ids, keys, hist) && NthPage(r, k, limit, ids, keys, hist)
    ensures Page(s, k * limit, 0) + r == Page(s, (k + 1) * limit, 0)
  {
    var t :| Listing(t, ids, keys, hist) && r == Page(t, limit, k * limit);
    ListingIsUnique(s, t, ids, keys, hist);
    assert (k + 1) * limit == k * limit + limit;
    PageAppend(s, k * limit, limit);
  }

  lemma {:induction false} PagesOfOneListing(pages: seq<seq<int>>, limit: nat, s: seq<int>, ids: set<int>,
                                             keys: seq<Key>, hist: History)
    requires ids <= hist.Keys && keys != [] && keys[|keys| - 1].column == Id
    requires Listing(s, ids, keys, hist)
    requires forall k | 0 <= k < |pages| :: NthPage(pages[k], k, limit, ids, keys, hist)
    ensures Concat(pages) == Page(s, |pages| * limit, 0)
  {
    if pages != [] {
      var n := |pages| - 1;
      PagesOfOneListing(pages[..n], limit, s, ids, keys, hist);
      NthPageOf(pages[n], n, limit, s, ids, keys, hist);
    }
  }

  lemma PageAppend(s: seq<int>, upto: nat, limit: nat)
    ensures Page(s, upto, 0) + Page(s, limit, upto) == Page(s, upto + limit, 0)
  {
  }

  /** Paging through with any sort name, direction and page size shows every filtered row
      exactly once, even though each page is a query of its own. */
  lemma PagingShowsEachRowOnce(pages: seq<seq<int>>, limit: nat, sortBy: Option<string>, sortDir: string,
                               ids: set<int>, hist: History)
    requires ids <= hist.Keys && pages != [] && |pages| * limit >= |ids|
    requires forall k | 0 <= k < |pages| :: NthPage(pages[k], k, limit, ids, OrderBy(sortBy, sortDir), hist)
    ensures NoRepeat(Concat(pages)) && Members(Concat(pages)) == ids
  {
    var keys := OrderBy(sortBy, sortDir);
    assert NthPage(pages[0], 0, limit, ids, keys, hist);
    var s :| Listing(s, ids, keys, hist) && pages[0] == Page(s, limit, 0 * limit);
    PagesOfOneListing(pages, limit, s, ids, keys, hist);
    SizeOfMembers(s);
    WholePage(s, |pages| * limit);
  }

  lemma WholePage(s: seq<int>, limit: nat)
    requires limit >= |s|
    ensures Page(s, limit, 0) == s
  {
  }

  lemma SizeOfMembers(s: seq<int>)
    requires NoRepeat(s)
    ensures |Members(s)| == |s|
  {
    if s != [] {
      var n := |s| - 1;
      SizeOfMembers(s[..n]);
      assert s == s[..n] + [s[n]];
      assert Members(s) == Members(s[..n]) + {s[n]};
    }
  }

  lemma TwoMembers(a: int, b: int)
    ensures Members([a, b]) == {a, b}
  {
    forall x ensures x in Members([a, b]) <==> x in {a, b} {
      assert [a, b][0] == a && [a, b][1] == b;
    }
  }

  lemma ListingOfTwo(a: int, b: int, ids: set<int>, keys: seq<Key>, hist: History)
    requires a != b && ids == {a, b} && ids <= hist.Keys && !Before(keys, hist, b, a)
    ensures Listing([a, b], ids, keys, hist)
  {
    var s := [a, b];
    TwoMembers(a, b);
    forall i, j | 0 <= i < j < |s|
      ensures s[i] != s[j] && s[i] in ids && s[j] in ids && !Before(keys, hist, s[j], s[i])
    {
      assert i == 0 && j == 1 && s[0] == a && s[1] == b;
    }
  }

  lemma TieOnLastSeen(a: int, b: int, hist: History)
    requires a in hist && b in hist && hist[a].lastSeen == hist[b].lastSeen
    ensures !Before([Key(LastSeen, false)], hist, a, b)
  {
    var keys := [Key(LastSeen, false)];
    assert keys[0] == Key(LastSeen, false) && keys[1..] == [];
    assert !Before(keys[1..], hist, a, b);
  }

  /** The tie-break is needed: sorted by last_seen alone, two rows that tie may show one
      of them on both pages and the other on neither. */
  lemma WithoutTieBreakPagesRepeat(a: int, b: int, hist: History)
    requires a != b && a in hist && b in hist && hist[a].lastSeen == hist[b].lastSeen
    ensures var keys := [Key(LastSeen, false)];
            && PageResult([a], 1, 0, {a, b}, keys, hist)
            && PageResult([a], 1, 1, {a, b}, keys, hist)
  {
    var keys := [Key(LastSeen, false)];
    TieOnLastSeen(a, b, hist);
    TieOnLastSeen(b, a, hist);
    ListingOfTwo(a, b, {a, b}, keys, hist);
    ListingOfTwo(b, a, {a, b}, keys, hist);
    assert Page([a, b], 1, 0) == [a] && Page([b, a], 1, 1) == [a];
  }

  // ---- The orders, column by column ----

  /** a comes before b in the dictionary: a proper prefix, or smaller at the first difference. */
  ghost predicate Precedes(a: string, b: string) {
    exists k: nat | k <= |a| && k <= |b| ::
      a[..k] == b[..k] && ((k == |a| && k < |b|) || (k < |a| && k < |b| && a[k] < b[k]))
  }

  lemma FirstOfPreceding(a: string, b: string)
    requires Precedes(a, b)
    ensures b != "" && (a == "" || a[0] <= b[0])
  {
    var k: nat :| k <= |a| && k <= |b| && a[..k] == b[..k]
                  && ((k == |a| && k < |b|) || (k < |a| && k < |b| && a[k] < b[k]));
    if k > 0 {
      assert a[0] == a[..k][0] == b[..k][0] == b[0];
    }
  }

  lemma {:induction false} TextLessIs(a: string, b: string)
    ensures TextLess(a, b) <==> Precedes(a, b)
    decreases |a|
  {
    if Precedes(a, b) {
      FirstOfPreceding(a, b);
    }
    if a != "" && b != "" && a[0] == b[0] {
      TextLessIs(a[1..], b[1..]);
      if Precedes(a[1..], b[1..]) {
        var k: nat :| k <= |a| - 1 && k <= |b| - 1 && a[1..][..k] == b[1..][..k]
                      && ((k == |a| - 1 && k < |b| - 1)
                          || (k < |a| - 1 && k < |b| - 1 && a[1..][k] < b[1..][k]));
        assert a[..k + 1] == [a[0]] + a[1..][..k] && b[..k + 1] == [b[0]] + b[1..][..k];
      }
      if Precedes(a, b) {
        var k: nat :| k <= |a| && k <= |b| && a[..k] == b[..k]
                      && ((k == |a| && k < |b|) || (k < |a| && k < |b| && a[k] < b[k]));
        assert k > 0;
        assert a[1..][..k - 1] == a[..k][1..] && b[1..][..k - 1] == b[..k][1..];
      }
    } else if b != "" && (a == "" || a[0] < b[0]) {
      assert a[..0] == b[..0];
    }
  }

  /** Critical, warning, info, and then anything else. */
  predicate AtLeastAsSevere(a: string, b: string) {
    && (b == "critical" ==> a == "critical")
    && (b == "warning" ==> a in ["critical", "warning"])
    && (b == "info" ==> a in ["critical", "warning", "info"])
  }

  /** The default listing is triage order: no row stands before a more severe one, within a
      severity the last seen comes first, and then the newest. */
  lemma DefaultIsTriageOrder(s: seq<int>, ids: set<int>, sortBy: Option<string>, sortDir: string, hist: History,
                             i: nat, j: nat)
    requires ids <= hist.Keys && i < j < |s| && Listing(s, ids, OrderBy(sortBy, sortDir), hist)
    requires sortBy.None? || sortBy.value !in ["id", "severity", "vehicle_name", "alert_type", "last_seen",
                                               "first_seen", "acknowledged_at", "occurrence_count"]
    ensures s[i] in hist && s[j] in hist
    ensures var a, b := hist[s[i]], hist[s[j]];
            && AtLeastAsSevere(a.severity, b.severity)
            && (a.severity == b.severity ==> a.lastSeen >= b.lastSeen)
            && (a.severity == b.severity && a.lastSeen == b.lastSeen ==> s[i] > s[j])
  {
    var keys := OrderBy(sortBy, sortDir);
    assert keys == [Key(SevRank, true), Key(LastSeen, false), Key(Id, false)];
    assert s[i] in ids && s[j] in ids && !Before(keys, hist, s[j], s[i]);
    assert keys[1..] == [Key(LastSeen, false), Key(Id, false)] && keys[1..][1..] == [Key(Id, false)];
    assert s[i] != s[j];
    if hist[s[i]].severity == hist[s[j]].severity {
      assert !Before(keys[1..], hist, s[j], s[i]);
      if hist[s[i]].lastSeen == hist[s[j]].lastSeen {
        assert !Before(keys[1..][1..], hist, s[j], s[i]);
      }
    }
  }

  /** Two neighbours of a listing by one column: the values do not go the wrong way, and equal ones
      have the newest first. */
  lemma ByOneColumn(s: seq<int>, ids: set<int>, c: Column, up: bool, hist: History, i: nat, j: nat)
    requires ids <= hist.Keys && i < j < |s| && Listing(s, ids, [Key(c, up), Key(Id, false)], hist)
    ensures s[i] in hist && s[j] in hist && s[i] != s[j]
    ensures var v, w := KeyValue(c, s[i], hist[s[i]]), KeyValue(c, s[j], hist[s[j]]);
            && !(if up then ValueLess(w, v) else ValueLess(v, w))
            && (v == w ==> s[i] > s[j])
  {
    var keys := [Key(c, up), Key(Id, false)];
    assert keys[1..] == [Key(Id, false)];
    assert s[i] in ids && s[j] in ids && s[i] != s[j] && !Before(keys, hist, s[j], s[i]);
    if KeyValue(c, s[i], hist[s[i]]) == KeyValue(c, s[j], hist[s[j]]) {
      assert !Before(keys[1..], hist, s[j], s[i]);
      assert !KeyLess(Key(Id, false), Num(s[j]), Num(s[i]));
    }
  }

  predicate InOrder(up: bool, a: int, b: int) {
    if up then a <= b else a >= b
  }

  /** A missing time counts as later than any. */
  predicate TimesInOrder(up: bool, a: Option<int>, b: Option<int>) {
    if a.Some? && b.Some? then InOrder(up, a.value, b.value)
    else if up then a.Some? || b.None? else a.None? || b.Some?
  }

  predicate IsUp(sortDir: string) {
    |sortDir| == 3 && sortDir[0] in "aA" && sortDir[1] in "sS" && sortDir[2] in "cC"
  }

  lemma UpIs(sortDir: string)
    ensures Lower(sortDir) == "asc" <==> IsUp(sortDir)
  {
    LowerInChars(sortDir);
    assert "asc"[0] == 'a' && "asc"[1] == 's' && "asc"[2] == 'c';
  }

  /** Each name sorts by its own field of the row, up for "asc" in any case and down otherwise. */
  lemma NamedColumns(s: seq<int>, ids: set<int>, name: string, sortDir: string, hist: History, i: nat, j: nat)
    requires ids <= hist.Keys && i < j < |s| && Listing(s, ids, OrderBy(Some(name), sortDir), hist)
    ensures s[i] in hist && s[j] in hist
    ensures var a, b, up := hist[s[i]], hist[s[j]], IsUp(sortDir);
            && (name == "id" ==> InOrder(up, s[i], s[j]))
            && (name == "last_seen" ==> InOrder(up, a.lastSeen, b.lastSeen))
            && (name == "first_seen" ==> InOrder(up, a.firstSeen, b.firstSeen))
            && (name == "occurrence_count" ==> InOrder(up, a.occurrences, b.occurrences))
            && (name == "acknowledged_at" ==> TimesInOrder(up, a.acknowledgedAt, b.acknowledgedAt))
            && (name == "severity" ==>
                  if up then AtLeastAsSevere(a.severity, b.severity) else AtLeastAsSevere(b.severity, a.severity))
            && (name == "alert_type" ==>
                  if up then !Precedes(b.alertType, a.alertType) else !Precedes(a.alertType, b.alertType))
            && (name == "vehicle_name" ==>
                  var v, w := Lower(a.vehicleName), Lower(b.vehicleName);
                  if up then !Precedes(w, v) else !Precedes(v, w))
  {
    UpIs(sortDir);
    assert s[i] in ids && s[j] in ids;
    match SortColumn(name)
    case None =>
    case Some(c) =>
      var a, b := hist[s[i]], hist[s[j]];
      ByOneColumn(s, ids, c, IsUp(sortDir), hist, i, j);
      NamesDiffer();
      TextLessIs(a.alertType, b.alertType);
      TextLessIs(b.alertType, a.alertType);
      TextLessIs(Lower(a.vehicleName), Lower(b.vehicleName));
      TextLessIs(Lower(b.vehicleName), Lower(a.vehicleName));
  }

  /** Rows that tie on the column have the newest first, up or down. */
  lemma TiesAreNewestFirst(s: seq<int>, ids: set<int>, name: string, sortDir: string, hist: History, i: nat, j: nat)
    requires ids <= hist.Keys && i < j < |s| && Listing(s, ids, OrderBy(Some(name), sortDir), hist)
    requires name in ["last_seen", "first_seen", "acknowledged_at", "occurrence_count", "severity", "alert_type",
                      "vehicle_name"]
    requires s[i] in hist && s[j] in hist && hist[s[i]] == hist[s[j]]
    ensures s[i] > s[j]
  {
    NamesDiffer();
    ByOneColumn(s, ids, SortColumn(name).value, Lower(sortDir) == "asc", hist, i, j);
  }

  lemma NamesDiffer()
    ensures |"id"| == 2 && |"severity"| == 8 && |"vehicle_name"| == 12 && |"alert_type"| == 10 && |"last_seen"| == 9
    ensures |"first_seen"| == 10 && |"acknowledged_at"| == 15 && |"occurrence_count"| == 16
    ensures "alert_type"[0] == 'a' && "first_seen"[0] == 'f'
  {
  }
}
