/** What a filter of the alert board means, in the fields of a row and in plain numbers
    (adapters/storage/alerts.py, _alert_filter_clause). The compiler's theorem is about Wanted;
    here Wanted itself is told without its own helpers. */
module AlertMeaning {
  import opened Common
  import opened AlertTables
  import opened AlertQuery
  import TextSearch

  // ---- The tab ----

  /** Some row of the ledger names this account, alert and person. */
  ghost predicate Named(ledger: set<PersonRow>, account: int, alert: int, user: int) {
    exists r | r in ledger :: r.account == account && r.alert == alert && r.user == user
  }

  ghost predicate NamedBySomebody(ledger: set<PersonRow>, account: int, alert: int) {
    exists r | r in ledger :: r.account == account && r.alert == alert
  }

  /** Everything but the tab and the window. */
  ghost predicate Rest(f: Filter, h: HistoryRow) {
    && (Given(f.alertType) ==> Chosen(f.alertType.value, h.alertType))
    && (Given(f.severity) ==> Chosen(f.severity.value, h.severity))
    && MatchesVehicle(f, h) && MatchesText(f, h)
  }

  /** The personal tabs: what this person has not seen (or nobody, for a caller without a person),
      what this person works on (nothing, without one), and everything. Status plays no part. */
  lemma PersonalTabs(f: Filter, now: int, l: Ledgers, id: int, h: HistoryRow)
    requires f.days == None
    ensures f.view == Some("new") && f.viewer.Some? ==>
              (Wanted(f, now, l, id, h) <==> Rest(f, h) && !Named(l.seen, h.account, id, f.viewer.value))
    ensures f.view == Some("new") && f.viewer.None? ==>
              (Wanted(f, now, l, id, h) <==> Rest(f, h) && !NamedBySomebody(l.seen, h.account, id))
    ensures f.view == Some("mine_working") && f.viewer.Some? ==>
              (Wanted(f, now, l, id, h) <==> Rest(f, h) && Named(l.workers, h.account, id, f.viewer.value))
    ensures f.view == Some("mine_working") && f.viewer.None? ==> !Wanted(f, now, l, id, h)
    ensures f.view == Some("all") ==> (Wanted(f, now, l, id, h) <==> Rest(f, h))
  {
    DifferentViews();
  }

  lemma DifferentViews()
    ensures "new" != "all" && "new" != "mine_working" && "all" != "mine_working"
  {
    assert "new"[0] == 'n' && "all"[0] == 'a' && "mine_working"[0] == 'm';
  }

  /** Any other view leaves the choice to the acknowledgement state: open rows, closed ones, or
      both. */
  lemma StateTabs(f: Filter, now: int, l: Ledgers, id: int, h: HistoryRow)
    requires f.days == None && f.view !in [Some("new"), Some("all"), Some("mine_working")]
    ensures f.ackState == "active" ==> (Wanted(f, now, l, id, h) <==> Rest(f, h) && h.status == "active")
    ensures f.ackState == "acknowledged" ==> (Wanted(f, now, l, id, h) <==> Rest(f, h) && h.status != "active")
    ensures f.ackState !in ["active", "acknowledged"] ==> (Wanted(f, now, l, id, h) <==> Rest(f, h))
  {
    assert "active"[1] == 'c' && "acknowledged"[2] == 'k' && "active"[2] == 't';
  }

  // ---- The date window ----

  /** A window of d days bounds closed rows by their first fire, 86400 seconds a day back from now,
      and open rows not at all; zero days is no window. */
  lemma WindowInSeconds(f: Filter, d: int, now: int, l: Ledgers, id: int, h: HistoryRow)
    ensures var windowed, unbounded := f.(days := Some(d)), f.(days := None);
            && (d == 0 || h.status == "active" ==>
                  (Wanted(windowed, now, l, id, h) <==> Wanted(unbounded, now, l, id, h)))
            && (d != 0 && h.status != "active" ==>
                  (Wanted(windowed, now, l, id, h) <==>
                   Wanted(unbounded, now, l, id, h) && h.firstSeen + d * 86400 >= now))
  {
    var windowed, unbounded := f.(days := Some(d)), f.(days := None);
    assert OnTab(windowed, l, id, h) <==> OnTab(unbounded, l, id, h);
    assert MatchesVehicle(windowed, h) <==> MatchesVehicle(unbounded, h);
    assert MatchesText(windowed, h) <==> MatchesText(unbounded, h);
  }

  /** A longer window never loses a row, and no window loses none. */
  lemma LongerWindowKeeps(f: Filter, d: int, e: int, now: int, l: Ledgers, id: int, h: HistoryRow)
    requires 0 < d <= e && Wanted(f.(days := Some(d)), now, l, id, h)
    ensures Wanted(f.(days := Some(e)), now, l, id, h) && Wanted(f.(days := None), now, l, id, h)
  {
    WindowInSeconds(f, d, now, l, id, h);
    WindowInSeconds(f, e, now, l, id, h);
    assert d * 86400 <= e * 86400;
  }

  // ---- The comma list ----

  predicate Blank(s: string) {
    forall i | 0 <= i < |s| :: s[i] in " \t\n\r"
  }

  /** Starts and ends with something other than a blank. */
  predicate Trim(s: string) {
    s == "" || (s[0] !in " \t\n\r" && s[|s| - 1] !in " \t\n\r")
  }

  /** s is v between blanks. */
  ghost predicate Around(s: string, v: string) {
    exists i, j | 0 <= i <= j <= |s| :: Cuts(s, i, j, v)
  }

  predicate Cuts(s: string, i: int, j: int, v: string) {
    0 <= i <= j <= |s| && s[i..j] == v && Blank(s[..i]) && Blank(s[j..])
  }

  lemma SpaceIs(c: char)
    ensures Space(c) <==> c in " \t\n\r"
  {
    assert " \t\n\r"[0] == ' ' && " \t\n\r"[1] == '\t' && " \t\n\r"[2] == '\n' && " \t\n\r"[3] == '\r';
  }

  lemma CutsBehind(c: char, s: string, i: nat, j: nat, v: string)
    requires c in " \t\n\r" && Cuts(s, i, j, v)
    ensures Cuts([c] + s, i + 1, j + 1, v)
  {
    var all := [c] + s;
    assert all[i + 1..j + 1] == s[i..j] && all[j + 1..] == s[j..];
    assert all[..i + 1] == [c] + s[..i];
  }

  lemma CutsBefore(s: string, c: char, i: nat, j: nat, v: string)
    requires c in " \t\n\r" && Cuts(s, i, j, v)
    ensures Cuts(s + [c], i, j, v)
  {
    var all := s + [c];
    assert all[i..j] == s[i..j] && all[..i] == s[..i];
    assert all[j..] == s[j..] + [c];
  }

  predicate Stripped(s: string, i: int, j: int) {
    Cuts(s, i, j, Strip(s)) && Trim(Strip(s))
  }

  lemma StrippedBehind(s: string, i: nat, j: nat)
    requires s != "" && Space(s[0]) && Stripped(s[1..], i, j)
    ensures Stripped(s, i + 1, j + 1)
  {
    SpaceIs(s[0]);
    CutsBehind(s[0], s[1..], i, j, Strip(s[1..]));
    assert s == [s[0]] + s[1..];
  }

  lemma StrippedBefore(s: string, i: nat, j: nat)
    requires s != "" && !Space(s[0]) && Space(s[|s| - 1]) && Stripped(s[..|s| - 1], i, j)
    ensures Stripped(s, i, j)
  {
    var n := |s| - 1;
    SpaceIs(s[n]);
    CutsBefore(s[..n], s[n], i, j, Strip(s[..n]));
    assert s == s[..n] + [s[n]];
  }

  lemma NothingToStrip(s: string)
    requires s == "" || (!Space(s[0]) && !Space(s[|s| - 1]))
    ensures Stripped(s, 0, |s|)
  {
    if s != "" {
      SpaceIs(s[0]);
      SpaceIs(s[|s| - 1]);
    }
  }

  /** Stripping cuts the blanks off both ends. */
  lemma {:induction false} StripCuts(s: string) returns (i: nat, j: nat)
    ensures Stripped(s, i, j)
    decreases |s|
  {
    if s == "" || (!Space(s[0]) && !Space(s[|s| - 1])) {
      i, j := 0, |s|;
      NothingToStrip(s);
    } else if Space(s[0]) {
      var p, q := StripCuts(s[1..]);
      StrippedBehind(s, p, q);
      i, j := p + 1, q + 1;
    } else {
      i, j := StripCuts(s[..|s| - 1]);
      StrippedBefore(s, i, j);
    }
  }

  lemma AroundTheCut(s: string, i: nat, j: nat, v: string)
    requires Cuts(s, i, j, v) && Trim(v)
    ensures forall k | 0 <= k < i || j <= k < |s| :: s[k] in " \t\n\r"
    ensures v != "" ==> i < j && s[i] !in " \t\n\r" && s[j - 1] !in " \t\n\r"
  {
    forall k | 0 <= k < i ensures s[k] in " \t\n\r" {
      assert s[..i][k] == s[k];
    }
    forall k | j <= k < |s| ensures s[k] in " \t\n\r" {
      assert s[j..][k - j] == s[k];
    }
    assert v != "" ==> s[i] == v[0] && s[j - 1] == v[|v| - 1];
  }

  /** There is one way to cut. */
  lemma OneCut(s: string, i: nat, j: nat, v: string, i': nat, j': nat, v': string)
    requires Cuts(s, i, j, v) && Trim(v) && v != "" && Cuts(s, i', j', v') && Trim(v')
    ensures v == v'
  {
    AroundTheCut(s, i, j, v);
    AroundTheCut(s, i', j', v');
    assert i' <= i < j';
    assert v' != "";
    assert i == i' && j == j';
  }

  /** Strip gives v exactly when v has no blank at its ends and stands between blanks. */
  lemma StripIs(s: string, v: string)
    requires v != ""
    ensures Strip(s) == v <==> Trim(v) && Around(s, v)
  {
    var i, j := StripCuts(s);
    assert Strip(s) == v ==> Cuts(s, i, j, v);
    if Trim(v) && Around(s, v) {
      var i', j' :| 0 <= i' <= j' <= |s| && Cuts(s, i', j', v);
      OneCut(s, i', j', v, i, j, Strip(s));
    }
  }

  predicate CommaFree(s: string) {
    ',' !in s
  }

  /** The pieces with commas between them. */
  function Joined(pieces: seq<string>): string
    requires pieces != []
  {
    if |pieces| == 1 then pieces[0] else pieces[0] + "," + Joined(pieces[1..])
  }

  lemma {:induction false} SplitPiece(piece: string, rest: string)
    requires CommaFree(piece)
    ensures Split(piece) == [piece] && Split(piece + "," + rest) == [piece] + Split(rest)
  {
    var raw := piece + "," + rest;
    if piece == "" {
      assert raw[1..] == rest;
    } else {
      assert raw[1..] == piece[1..] + "," + rest;
      SplitPiece(piece[1..], rest);
      assert [piece[0]] + piece[1..] == piece;
    }
  }

  /** Splitting undoes joining. */
  lemma {:induction false} SplitJoined(pieces: seq<string>)
    requires pieces != [] && forall k | 0 <= k < |pieces| :: CommaFree(pieces[k])
    ensures Split(Joined(pieces)) == pieces
  {
    SplitPiece(pieces[0], if |pieces| == 1 then "" else Joined(pieces[1..]));
    if |pieces| > 1 {
      SplitJoined(pieces[1..]);
    }
  }

  /** Of a list of pieces with commas between them a value is chosen exactly when it is one of the
      pieces without its surrounding blanks, and not empty. */
  lemma ChosenIff(pieces: seq<string>, value: string)
    requires pieces != [] && forall k | 0 <= k < |pieces| :: CommaFree(pieces[k])
    ensures Chosen(Joined(pieces), value) <==>
            value != "" && Trim(value) && exists k | 0 <= k < |pieces| :: Around(pieces[k], value)
  {
    SplitJoined(pieces);
    if value != "" {
      forall k | 0 <= k < |pieces| ensures Strip(pieces[k]) == value <==> Trim(value) && Around(pieces[k], value) {
        StripIs(pieces[k], value);
      }
    }
  }

  // ---- The other columns ----

  /** An empty choice is no choice. */
  lemma EmptyChoiceIsNone(f: Filter, now: int, l: Ledgers, id: int, h: HistoryRow)
    ensures Wanted(f.(alertType := Some("")), now, l, id, h) <==> Wanted(f.(alertType := None), now, l, id, h)
    ensures Wanted(f.(severity := Some("")), now, l, id, h) <==> Wanted(f.(severity := None), now, l, id, h)
    ensures Wanted(f.(vehicle := Some("")), now, l, id, h) <==> Wanted(f.(vehicle := None), now, l, id, h)
    ensures Wanted(f.(text := Some("")), now, l, id, h) <==> Wanted(f.(text := None), now, l, id, h)
  {
  }

  /** Types, severities, the vehicle and the search box narrow independently: each asks about its
      own column, in any case for the last two; the box asks about the vehicle or the location. */
  lemma RestInColumns(f: Filter, h: HistoryRow, location: string)
    requires location == if h.location.None? then "" else h.location.value
    ensures Rest(f, h) <==>
            && (f.alertType.Some? && f.alertType.value != "" ==> Chosen(f.alertType.value, h.alertType))
            && (f.severity.Some? && f.severity.value != "" ==> Chosen(f.severity.value, h.severity))
            && (f.vehicle.Some? && f.vehicle.value != "" ==>
                  TextSearch.Like(Lower(h.vehicleName), "%" + Lower(f.vehicle.value) + "%"))
            && (f.text.Some? && f.text.value != "" ==>
                  exists k :: FoundAt(h.vehicleName, f.text.value, k) || FoundAt(location, f.text.value, k))
  {
    if f.text.Some? && f.text.value != "" {
      FoundIff(h.vehicleName, f.text.value);
      FoundIff(location, f.text.value);
    }
  }

  predicate SameLetter(a: char, b: char) {
    var x, y := a as int, b as int;
    x == y || (65 <= x <= 90 && y == x + 32) || (65 <= y <= 90 && x == y + 32)
  }

  /** The text stands in s from position k on, in any case. */
  predicate FoundAt(s: string, text: string, k: int) {
    0 <= k <= |s| - |text| && forall i | 0 <= i < |text| :: SameLetter(s[k + i], text[i])
  }

  lemma FoundIff(s: string, text: string)
    ensures Contains(Lower(s), Lower(text)) <==> exists k :: FoundAt(s, text, k)
  {
    LowerInChars(s);
    LowerInChars(text);
    forall k ensures OccursAt(Lower(s), Lower(text), k) <==> FoundAt(s, text, k) {
      if OccursAt(Lower(s), Lower(text), k) {
        forall i | 0 <= i < |text| ensures SameLetter(s[k + i], text[i]) {
          assert Lower(s)[k..k + |text|][i] == Lower(text)[i];
        }
      }
      if FoundAt(s, text, k) {
        assert forall i | 0 <= i < |text| :: Lower(s)[k + i] == Lower(text)[i];
      }
    }
    if k :| FoundAt(s, text, k) {
      assert OccursAt(Lower(s), Lower(text), k);
    }
  }

  /** A plain vehicle text is found anywhere in the name, in any case. */
  lemma PlainVehicleIsFound(f: Filter, h: HistoryRow)
    requires Given(f.vehicle) && TextSearch.PlainText(Lower(f.vehicle.value))
    ensures MatchesVehicle(f, h) <==> exists k :: FoundAt(h.vehicleName, f.vehicle.value, k)
  {
    TextSearch.UnescapedFilterIsContainsIffPlain(Lower(f.vehicle.value));
    FoundIff(h.vehicleName, f.vehicle.value);
  }

  // ---- The SQL, clause by clause ----

  /** The table's own name qualifies the outer row when the query gives no alias. */
  ghost predicate OuterName(alias: string, outer: string) {
    outer == if alias == "" then "alert_history" else alias
  }

  /** EXISTS (SELECT 1 FROM ledger row WHERE row.account_id = outer.account_id AND
      row.alert_history_id = outer.id), and with a person AND row.user_id = ?. */
  function LedgerSql(table: Table, row: string, outer: string, personal: bool): Cond {
    var same := And(Eq(Col(row, "account_id"), Col(outer, "account_id")),
                    Eq(Col(row, "alert_history_id"), Col(outer, "id")));
    Exists(table, row, if personal then And(same, Eq(Col(row, "user_id"), Param)) else same)
  }

  /** The tab's clause, if it has one, with the person as its parameter. */
  lemma TabSql(f: Filter, alias: string, outer: string)
    requires OuterName(alias, outer)
    ensures var g := TabPart(f, alias);
            && (f.view == Some("new") && f.viewer.Some? ==>
                  g == Fragment([Not(LedgerSql(SeenTable, "sn", outer, true))], [Num(f.viewer.value)]))
            && (f.view == Some("new") && f.viewer.None? ==>
                  g == Fragment([Not(LedgerSql(SeenTable, "sn", outer, false))], []))
            && (f.view == Some("mine_working") && f.viewer.Some? ==>
                  g == Fragment([LedgerSql(WorkersTable, "wk", outer, true)], [Num(f.viewer.value)]))
            && (f.view == Some("mine_working") && f.viewer.None? ==>
                  g == Fragment([Eq(Const(Num(1)), Const(Num(0)))], []))
            && (f.view == Some("all") ==> g == Fragment([], []))
            && (f.view !in [Some("new"), Some("all"), Some("mine_working")] ==>
                  && (f.ackState == "active" ==>
                        g == Fragment([Eq(Col(alias, "status"), Const(Text("active")))], []))
                  && (f.ackState == "acknowledged" ==>
                        g == Fragment([Ne(Col(alias, "status"), Const(Text("active")))], []))
                  && (f.ackState !in ["active", "acknowledged"] ==> g == Fragment([], [])))
  {
    DifferentViews();
    assert "active"[2] == 't' && "acknowledged"[2] == 'k';
  }

  /** The window's clause: on a personal tab, and on the tab of all states, open rows pass whatever
      their age; on the acknowledged tab there are none; on the active tab there is no clause. */
  lemma WindowSql(f: Filter, now: int, alias: string, d: int)
    requires f.days == Some(d) && d != 0
    ensures var since, cut := Ge(Col(alias, "first_seen"), Param), Num(now - d * 86400);
            var openOrSince := Fragment([Or(Eq(Col(alias, "status"), Const(Text("active"))), since)], [cut]);
            var personal := f.view in [Some("new"), Some("all"), Some("mine_working")];
            WindowPart(f, now, alias) ==
            if personal || f.ackState !in ["active", "acknowledged"] then openOrSince
            else if f.ackState == "acknowledged" then Fragment([since], [cut])
            else Fragment([], [])
  {
    assert "active"[2] == 't' && "acknowledged"[2] == 'k';
  }

  /** The two text clauses: the vehicle between two percent signs as it was typed, and the escaped
      box twice, all in lower case. */
  lemma TextSql(f: Filter, alias: string)
    ensures f.vehicle.Some? && f.vehicle.value != "" ==>
              VehiclePart(f, alias) ==
              Fragment([LikeDefault(LowerOf(Col(alias, "vehicle_name")), Param)],
                       [Text("%" + Lower(f.vehicle.value) + "%")])
    ensures f.text.Some? && f.text.value != "" ==>
              var needle := Text("%" + TextSearch.Escape(Lower(f.text.value)) + "%");
              TextPart(f, alias) ==
              Fragment([Or(LikeEscaped(LowerOf(Col(alias, "vehicle_name")), Param),
                           LikeEscaped(LowerOf(OrEmpty(Col(alias, "location"))), Param))], [needle, needle])
  {
  }

  lemma NonEmptyOfOne(piece: string)
    requires Strip(piece) != ""
    ensures NonEmpty([piece]) == [Strip(piece)]
  {
    assert [piece][1..] == [] && NonEmpty([piece][1..]) == [];
  }

  /** A multi-select column: no clause, one equality, one IN, or never true. */
  lemma ColumnSql(column: string, pieces: seq<string>, alias: string)
    requires pieces != [] && forall k | 0 <= k < |pieces| :: CommaFree(pieces[k])
    requires Joined(pieces) != ""
    ensures var g := InPart(column, Some(Joined(pieces)), alias);
            && InPart(column, None, alias) == Fragment([], [])
            && |g.clauses| == 1
            && ((forall k | 0 <= k < |pieces| :: Strip(pieces[k]) == "") ==>
                  g == Fragment([Eq(Const(Num(1)), Const(Num(0)))], []))
            && (|pieces| == 1 && Strip(pieces[0]) != "" ==>
                  g == Fragment([Eq(Col(alias, column), Param)], [Text(Strip(pieces[0]))]))
            && (|g.params| > 1 ==> g.clauses[0] == InParams(Col(alias, column), |g.params|))
            && (forall v :: Text(v) in g.params <==>
                  v != "" && Trim(v) && exists k | 0 <= k < |pieces| :: Around(pieces[k], v))
  {
    SplitJoined(pieces);
    var values := NonEmpty(pieces);
    if values != [] {
      assert values[0] in values;
    }
    if |pieces| == 1 && Strip(pieces[0]) != "" {
      assert pieces == [pieces[0]];
      NonEmptyOfOne(pieces[0]);
    }
    forall v ensures Text(v) in InPart(column, Some(Joined(pieces)), alias).params <==> v in values {
      if v in values {
        var k :| 0 <= k < |values| && values[k] == v;
        assert AsText(values)[k] == Text(v);
      }
    }
    forall v, k | v != "" && 0 <= k < |pieces|
      ensures Strip(pieces[k]) == v <==> Trim(v) && Around(pieces[k], v)
    {
      StripIs(pieces[k], v);
    }
  }
}
