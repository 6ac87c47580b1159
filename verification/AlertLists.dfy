/** What the board's queries return (adapters/storage/alerts.py): the paged list, the
    count beside it, the tabs, and "mark everything this tab shows as seen". */
module AlertLists {
  import opened Common
  import opened AlertTables
  import opened AlertQuery

  // ---- The rows a filter asks for ----

  ghost function WantedIds(hist: History, account: int, f: Filter, now: int, l: Ledgers): set<int> {
    set id | id in hist && hist[id].account == account && Wanted(f, now, l, id, hist[id])
  }

  /** SELECT ... FROM alert_history WHERE account_id = ? with a compiled fragment. */
  function SelectIds(hist: History, account: int, g: Fragment, l: Ledgers): set<int> {
    set id | id in hist && hist[id].account == account && Selects(g, l, Scope("", id, hist[id], []))
  }

  lemma SelectIsWanted(hist: History, account: int, f: Filter, now: int, l: Ledgers)
    ensures SelectIds(hist, account, Compiled(f, now, ""), l) == WantedIds(hist, account, f, now, l)
  {
    forall id | id in hist
      ensures Selects(Compiled(f, now, ""), l, Scope("", id, hist[id], [])) <==> Wanted(f, now, l, id, hist[id])
    {
      CompiledMeansWanted(f, now, "", l, id, hist[id], []);
    }
  }

  // ---- The paged list joins the acknowledger's name ----

  /** The users a LEFT JOIN pairs with a row, or nobody. */
  ghost function Joined(users: set<UserRow>, h: HistoryRow): set<Option<UserRow>> {
    var m := set u | u in users && Some(u.telegram) == h.acknowledgedBy && u.account == h.account;
    if m == {} then {None} else set u | u in m :: Some(u)
  }

  function JoinedFrame(u: Option<UserRow>): seq<Frame> {
    if u.Some? then [Frame("u", User(u.value))] else []
  }

  /** The unpaged list: one row per alert and joined user. */
  ghost function ListRows(hist: History, users: set<UserRow>, account: int, f: Filter, now: int, l: Ledgers)
    : set<(int, Option<UserRow>)>
  {
    set id, u | id in hist && u in Joined(users, hist[id]) && hist[id].account == account &&
                Selects(Compiled(f, now, "h"), l, Scope("h", id, hist[id], JoinedFrame(u))) :: (id, u)
  }

  /** users.telegram_id is unique. */
  ghost predicate UniqueTelegram(users: set<UserRow>) {
    forall u, v | u in users && v in users && u.telegram == v.telegram :: u == v
  }

  lemma JoinedIsSingle(users: set<UserRow>, h: HistoryRow)
    requires UniqueTelegram(users)
    ensures exists u :: Joined(users, h) == {u}
  {
    var m := set u | u in users && Some(u.telegram) == h.acknowledgedBy && u.account == h.account;
    if m == {} {
      assert Joined(users, h) == {None};
    } else {
      var u :| u in m;
      assert m == {u};
      assert Joined(users, h) == {Some(u)};
    }
  }

  lemma SameSize<A, B>(ids: set<A>, pairs: set<(A, B)>)
    requires forall p | p in pairs :: p.0 in ids
    requires forall id | id in ids :: exists p | p in pairs :: p.0 == id
    requires forall p, q | p in pairs && q in pairs && p.0 == q.0 :: p == q
    ensures |ids| == |pairs|
  {
    if ids == {} {
      assert pairs == {};
    } else {
      var id :| id in ids;
      var p :| p in pairs && p.0 == id;
      var ids', pairs' := ids - {id}, pairs - {p};
      forall i | i in ids' ensures exists q | q in pairs' :: q.0 == i {
        var q :| q in pairs && q.0 == i;
        assert q in pairs';
      }
      SameSize(ids', pairs');
    }
  }

  /** The unpaged list has exactly as many rows as the count beside it, although one
      query is compiled with an alias and a join and the other with neither. */
  lemma ListLengthIsCount(hist: History, users: set<UserRow>, account: int, f: Filter, now: int, l: Ledgers)
    requires UniqueTelegram(users)
    ensures |ListRows(hist, users, account, f, now, l)| == |SelectIds(hist, account, Compiled(f, now, ""), l)|
    ensures forall p | p in ListRows(hist, users, account, f, now, l) :: p.0 in WantedIds(hist, account, f, now, l)
  {
    SelectIsWanted(hist, account, f, now, l);
    var ids, rows := WantedIds(hist, account, f, now, l), ListRows(hist, users, account, f, now, l);
    forall id, u | id in hist && u in Joined(users, hist[id])
      ensures (id, u) in rows <==> id in ids
    {
      CompiledMeansWanted(f, now, "h", l, id, hist[id], JoinedFrame(u));
    }
    forall id | id in hist ensures exists u :: Joined(users, hist[id]) == {u} {
      JoinedIsSingle(users, hist[id]);
    }
    forall id | id in ids ensures exists p | p in rows :: p.0 == id {
      var u :| Joined(users, hist[id]) == {u};
      assert (id, u) in rows;
    }
    SameSize(ids, rows);
  }

  // ---- Tabs ----

  function WithState(f: Filter, ackState: string): Filter {
    f.(ackState := ackState, view := None)
  }

  /** For every date window and every other filter, the tab of all alerts is the union of
      the open and the acknowledged tab, which share nothing; so the counts add up. */
  lemma AllTabIsDisjointUnion(hist: History, account: int, f: Filter, now: int, l: Ledgers)
    ensures var all := WantedIds(hist, account, WithState(f, "all"), now, l);
            var open := WantedIds(hist, account, WithState(f, "active"), now, l);
            var done := WantedIds(hist, account, WithState(f, "acknowledged"), now, l);
            all == open + done && open !! done && |all| == |open| + |done|
  {
    var all := WantedIds(hist, account, WithState(f, "all"), now, l);
    var open := WantedIds(hist, account, WithState(f, "active"), now, l);
    var done := WantedIds(hist, account, WithState(f, "acknowledged"), now, l);
    forall id | id in hist && hist[id].account == account
      ensures id in all <==> id in open || id in done
      ensures !(id in open && id in done)
    {
      RowIsOnOneTab(f, now, l, id, hist[id]);
    }
    assert all == open + done;
  }

  lemma RowIsOnOneTab(f: Filter, now: int, l: Ledgers, id: int, h: HistoryRow)
    ensures Wanted(WithState(f, "active"), now, l, id, h) <==> Wanted(WithState(f, "all"), now, l, id, h) && Open(h)
    ensures Wanted(WithState(f, "acknowledged"), now, l, id, h) <==>
        Wanted(WithState(f, "all"), now, l, id, h) && !Open(h)
  {
  }

  /** No alert that is still open leaves a tab because of its age. */
  lemma OpenWorkIsNeverHiddenByAge(f: Filter, now: int, l: Ledgers, id: int, h: HistoryRow)
    requires Open(h)
    ensures Wanted(f, now, l, id, h) == Wanted(f.(days := None), now, l, id, h)
  {
  }

  // ---- The store ----

  class AlertStore {
    var history: History
    var ledgers: Ledgers

    /** SELECT COUNT(*) with the shared fragment. */
    method CountFiltered(account: int, f: Filter, now: int) returns (n: nat)
      ensures n == |WantedIds(history, account, f, now, ledgers)|
    {
      var clauses, params := Compile(f, now, "");
      n := |SelectIds(history, account, Fragment(clauses, params), ledgers)|;
      SelectIsWanted(history, account, f, now, ledgers);
    }

    /** INSERT ... SELECT ... ON CONFLICT DO NOTHING over the shared fragment; returns the
        number of rows inserted. Row ids come from the sequence `serial`. */
    method MarkFilteredAlertsSeen(account: int, user: int, f: Filter, now: int, serial: int -> int) returns (n: nat)
      requires f.viewer == Some(user)
      modifies this`ledgers
      ensures ledgers == Marked(history, account, user, f, now, old(ledgers), serial)
      ensures n == |Unseen(WantedIds(history, account, f, now, old(ledgers)), account, user, old(ledgers))|
    {
      var clauses, params := Compile(f, now, "");
      var ids := SelectIds(history, account, Fragment(clauses, params), ledgers);
      SelectIsWanted(history, account, f, now, ledgers);
      var added := Unseen(ids, account, user, ledgers);
      ledgers := ledgers.(seen := ledgers.seen + SeenRows(added, account, user, serial));
      n := |added|;
    }
  }

  /** The ids not yet in the ledger for this person: the rest conflict and are skipped. */
  function Unseen(ids: set<int>, account: int, user: int, l: Ledgers): set<int> {
    set id | id in ids && !exists r | r in l.seen :: r.account == account && r.alert == id && r.user == user
  }

  function SeenRows(ids: set<int>, account: int, user: int, serial: int -> int): set<PersonRow> {
    set id | id in ids :: PersonRow(serial(id), account, id, user)
  }

  ghost function Marked(hist: History, account: int, user: int, f: Filter, now: int, l: Ledgers,
                        serial: int -> int): Ledgers {
    l.(seen := l.seen + SeenRows(Unseen(WantedIds(hist, account, f, now, l), account, user, l), account, user, serial))
  }

  // ---- Marking the New tab ----

  lemma MarkedSeen(hist: History, account: int, user: int, f: Filter, now: int, l: Ledgers, serial: int -> int, id: int)
    ensures HasSeen(Marked(hist, account, user, f, now, l, serial), account, id, Some(user))
       <==> HasSeen(l, account, id, Some(user)) || id in WantedIds(hist, account, f, now, l)
  {
    var ids := WantedIds(hist, account, f, now, l);
    var l' := Marked(hist, account, user, f, now, l, serial);
    var added := Unseen(ids, account, user, l);
    if id in added {
      var r := PersonRow(serial(id), account, id, user);
      assert r in SeenRows(added, account, user, serial) && r in l'.seen;
    } else if HasSeen(l, account, id, Some(user)) {
      var r :| r in l.seen && r.account == account && r.alert == id && r.user == user;
      assert r in l'.seen;
    }
  }

  /** Marking the New tab inserts as many rows as the tab counted, empties it from then
      on, and a second marking inserts nothing. The count may carry any acknowledgement
      state, because the view overrides it. */
  lemma MarkingNewDrainsIt(hist: History, account: int, user: int, f: Filter, now: int, later: int, ackState: string,
                           l: Ledgers, serial: int -> int)
    requires ViewIs(f, "new") && f.viewer == Some(user) && now <= later
    ensures var l' := Marked(hist, account, user, f, now, l, serial);
            && |Unseen(WantedIds(hist, account, f, now, l), account, user, l)|
                 == |WantedIds(hist, account, f.(ackState := ackState), now, l)|
            && WantedIds(hist, account, f.(ackState := ackState), later, l') == {}
            && Unseen(WantedIds(hist, account, f, later, l'), account, user, l') == {}
            && Marked(hist, account, user, f, later, l', serial) == l'
  {
    var l' := Marked(hist, account, user, f, now, l, serial);
    var ids := WantedIds(hist, account, f, now, l);
    var g := f.(ackState := ackState);
    assert Unseen(ids, account, user, l) == ids;
    assert WantedIds(hist, account, g, now, l) == ids;
    forall id | id in hist && hist[id].account == account
      ensures !Wanted(f, later, l', id, hist[id]) && !Wanted(g, later, l', id, hist[id])
    {
      MarkedSeen(hist, account, user, f, now, l, serial, id);
      if !HasSeen(l', account, id, Some(user)) {
        assert !Wanted(f, now, l, id, hist[id]);
      }
    }
    assert WantedIds(hist, account, f, later, l') == {};
    assert Unseen({}, account, user, l') == {};
    assert SeenRows({}, account, user, serial) == {};
  }

  /** Nobody else's tabs change, and none of this person's other tabs do. */
  lemma MarkingLeavesOtherTabs(hist: History, account: int, user: int, f: Filter, now: int, l: Ledgers,
                               serial: int -> int,
                               g: Filter, account': int, at: int)
    requires !ViewIs(g, "new") || (g.viewer.Some? && g.viewer.value != user)
    ensures var l' := Marked(hist, account, user, f, now, l, serial);
            WantedIds(hist, account', g, at, l') == WantedIds(hist, account', g, at, l)
  {
    var l' := Marked(hist, account, user, f, now, l, serial);
    forall id | id in hist
      ensures Wanted(g, at, l', id, hist[id]) == Wanted(g, at, l, id, hist[id])
    {
      if ViewIs(g, "new") && HasSeen(l, hist[id].account, id, g.viewer) {
        var r :| r in l.seen && r.account == hist[id].account && r.alert == id && r.user == g.viewer.value;
        assert r in l'.seen;
      }
    }
  }

  // ---- The ledger, row by row ----

  /** Marking adds, for this person and account, one row for each wanted alert that had none, under
      an id of the sequence; and takes nothing away. */
  lemma MarksInFields(hist: History, account: int, user: int, f: Filter, now: int, l: Ledgers, serial: int -> int,
                      r: PersonRow)
    ensures var l' := Marked(hist, account, user, f, now, l, serial);
            && l'.workers == l.workers
            && (r in l'.seen <==>
                  || r in l.seen
                  || (&& r.account == account && r.user == user && r.id == serial(r.alert)
                      && r.alert in hist && hist[r.alert].account == account
                      && Wanted(f, now, l, r.alert, hist[r.alert])
                      && !exists q | q in l.seen :: q.account == account && q.alert == r.alert && q.user == user))
  {
    var added := Unseen(WantedIds(hist, account, f, now, l), account, user, l);
    assert r in SeenRows(added, account, user, serial) <==>
           r.alert in added && r == PersonRow(serial(r.alert), account, r.alert, user);
  }

  /** A query selects rows of its own account only. */
  lemma SelectsOwnAccount(hist: History, account: int, f: Filter, now: int, l: Ledgers, id: int)
    ensures id in WantedIds(hist, account, f, now, l) <==>
            id in hist && hist[id].account == account && Wanted(f, now, l, id, hist[id])
    ensures id in SelectIds(hist, account, Compiled(f, now, ""), l) ==> id in hist && hist[id].account == account
  {
  }
}
