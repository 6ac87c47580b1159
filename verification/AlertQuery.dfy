/** The board's query compiler (adapters/storage/alerts.py, _alert_filter_clause).

    SQL is modelled as syntax: conditions with positional placeholders, columns with an
    optional qualifier, and EXISTS with its own row in scope. A name without a qualifier
    belongs to the innermost row that has such a column. */
module AlertQuery {
  import opened Common
  import opened AlertTables
  import TextSearch

  // ---- Syntax ----

  datatype Value = Null | Num(n: int) | Text(s: string)

  datatype Expr =
    | Col(qualifier: string, name: string)
    | Param
    | Const(v: Value)
    | LowerOf(e: Expr)
    | OrEmpty(e: Expr)     // COALESCE(e, '')

  datatype Table = SeenTable | WorkersTable

  datatype Cond =
    | Eq(a: Expr, b: Expr)
    | Ne(a: Expr, b: Expr)
    | Ge(a: Expr, b: Expr)
    | InParams(a: Expr, n: nat)
    | LikeEscaped(a: Expr, b: Expr)   // LIKE ... ESCAPE '\'
    | LikeDefault(a: Expr, b: Expr)   // LIKE without ESCAPE: backslash is the default
    | And(c: Cond, d: Cond)
    | Or(c: Cond, d: Cond)
    | Not(c: Cond)
    | Exists(table: Table, alias: string, where: Cond)

  function ExprHoles(e: Expr): nat {
    match e
    case Param => 1
    case LowerOf(x) => ExprHoles(x)
    case OrEmpty(x) => ExprHoles(x)
    case _ => 0
  }

  /** How many positional parameters a condition takes. */
  function Holes(c: Cond): nat {
    match c
    case InParams(a, n) => ExprHoles(a) + n
    case And(x, y) => Holes(x) + Holes(y)
    case Or(x, y) => Holes(x) + Holes(y)
    case Not(x) => Holes(x)
    case Exists(_, _, w) => Holes(w)
    case _ => ExprHoles(c.a) + ExprHoles(c.b)
  }

  // ---- Meaning ----

  datatype Row = Alert(id: int, h: HistoryRow) | Person(p: PersonRow) | User(u: UserRow)

  datatype Frame = Frame(alias: string, row: Row)

  function OptText(o: Option<string>): Value {
    match o case None => Null case Some(s) => Text(s)
  }

  function OptNum(o: Option<int>): Value {
    match o case None => Null case Some(n) => Num(n)
  }

  /** The value of a column, or None when the row's table has no such column. */
  function Field(r: Row, name: string): Option<Value> {
    match r
    case Alert(id, h) =>
      if name == "id" then Some(Num(id))
      else if name == "account_id" then Some(Num(h.account))
      else if name == "alert_type" then Some(Text(h.alertType))
      else if name == "vehicle_name" then Some(Text(h.vehicleName))
      else if name == "location" then Some(OptText(h.location))
      else if name == "status" then Some(Text(h.status))
      else if name == "severity" then Some(Text(h.severity))
      else if name == "first_seen" then Some(Num(h.firstSeen))
      else if name == "acknowledged_by" then Some(OptNum(h.acknowledgedBy))
      else None
    case Person(p) =>
      if name == "id" then Some(Num(p.id))
      else if name == "account_id" then Some(Num(p.account))
      else if name == "alert_history_id" then Some(Num(p.alert))
      else if name == "user_id" then Some(Num(p.user))
      else None
    case User(u) =>
      if name == "telegram_id" then Some(Num(u.telegram))
      else if name == "account_id" then Some(Num(u.account))
      else None
  }

  /** Innermost frame first. */
  function Resolve(env: seq<Frame>, qualifier: string, name: string): Value {
    if env == [] then Null
    else
      var v := Field(env[0].row, name);
      if (qualifier == "" || qualifier == env[0].alias) && v.Some? then v.value
      else Resolve(env[1..], qualifier, name)
  }

  function LowerChar(c: char): char {
    if 'A' <= c <= 'Z' then c - 'A' + 'a' else c
  }

  function Lower(s: string): (r: string)
    ensures |r| == |s|
  {
    seq(|s|, i requires 0 <= i < |s| => LowerChar(s[i]))
  }

  /** The capitals move up by 32; every other character stays. */
  lemma LowerInChars(s: string)
    ensures forall i | 0 <= i < |s| ::
              Lower(s)[i] as int == if 65 <= s[i] as int <= 90 then s[i] as int + 32 else s[i] as int
  {
  }

  function EvalExpr(e: Expr, env: seq<Frame>, ps: seq<Value>): Value
    requires |ps| == ExprHoles(e)
  {
    match e
    case Col(q, n) => Resolve(env, q, n)
    case Param => ps[0]
    case Const(v) => v
    case LowerOf(x) =>
      var v := EvalExpr(x, env, ps);
      if v.Text? then Text(Lower(v.s)) else Null
    case OrEmpty(x) =>
      var v := EvalExpr(x, env, ps);
      if v.Null? then Text("") else v
  }

  function Compare(c: Cond, x: Value, y: Value): bool
    requires c.Eq? || c.Ne? || c.Ge? || c.LikeEscaped? || c.LikeDefault?
  {
    if x.Null? || y.Null? then false
    else
      match c
      case Eq(_, _) => x == y
      case Ne(_, _) => x != y
      case Ge(_, _) => x.Num? && y.Num? && x.n >= y.n
      case _ => x.Text? && y.Text? && TextSearch.Like(x.s, y.s)
  }

  function RowsOf(l: Ledgers, t: Table): set<PersonRow> {
    match t case SeenTable => l.seen case WorkersTable => l.workers
  }

  /** Whether a condition selects a row. A comparison with NULL does not; the compiler
      negates nothing but EXISTS, which is never unknown. */
  predicate Eval(c: Cond, l: Ledgers, env: seq<Frame>, ps: seq<Value>)
    requires |ps| == Holes(c)
    decreases c
  {
    match c
    case InParams(a, n) =>
      var k := ExprHoles(a);
      var x := EvalExpr(a, env, ps[..k]);
      x != Null && x in ps[k..]
    case And(x, y) => Eval(x, l, env, ps[..Holes(x)]) && Eval(y, l, env, ps[Holes(x)..])
    case Or(x, y) => Eval(x, l, env, ps[..Holes(x)]) || Eval(y, l, env, ps[Holes(x)..])
    case Not(x) => !Eval(x, l, env, ps)
    case Exists(t, alias, w) =>
      exists r | r in RowsOf(l, t) :: Eval(w, l, [Frame(alias, Person(r))] + env, ps)
    case _ =>
      var k := ExprHoles(c.a);
      Compare(c, EvalExpr(c.a, env, ps[..k]), EvalExpr(c.b, env, ps[k..]))
  }

  /** Clauses joined by AND, with their parameters in order. */
  datatype Fragment = Fragment(clauses: seq<Cond>, params: seq<Value>) {
    function Plus(o: Fragment): Fragment {
      Fragment(clauses + o.clauses, params + o.params)
    }
  }

  const NOTHING := Fragment([], [])
  const NEVER := Fragment([Eq(Const(Num(1)), Const(Num(0)))], [])

  function AllHoles(cs: seq<Cond>): nat {
    if cs == [] then 0 else Holes(cs[0]) + AllHoles(cs[1..])
  }

  predicate EvalAll(cs: seq<Cond>, l: Ledgers, env: seq<Frame>, ps: seq<Value>)
    requires |ps| == AllHoles(cs)
  {
    cs == [] ||
    (Eval(cs[0], l, env, ps[..Holes(cs[0])]) && EvalAll(cs[1..], l, env, ps[Holes(cs[0])..]))
  }

  /** The parameters fit the placeholders and every clause selects the row. */
  predicate Selects(g: Fragment, l: Ledgers, env: seq<Frame>) {
    |g.params| == AllHoles(g.clauses) && EvalAll(g.clauses, l, env, g.params)
  }

  lemma PlusNothing(g: Fragment)
    ensures g.Plus(NOTHING) == g == NOTHING.Plus(g)
  {
  }

  predicate Fits(g: Fragment) {
    |g.params| == AllHoles(g.clauses)
  }

  lemma SelectsPlus(g: Fragment, o: Fragment, l: Ledgers, env: seq<Frame>)
    requires Fits(g) && Fits(o)
    ensures Fits(g.Plus(o))
    ensures Selects(g.Plus(o), l, env) <==> Selects(g, l, env) && Selects(o, l, env)
    decreases |g.clauses|
  {
    if g.clauses == [] {
      assert g.Plus(o) == o;
    } else {
      var k := Holes(g.clauses[0]);
      var rest := Fragment(g.clauses[1..], g.params[k..]);
      SelectsPlus(rest, o, l, env);
      var all := g.Plus(o);
      assert all.clauses[1..] == rest.clauses + o.clauses;
      assert all.params[k..] == rest.params + o.params;
      assert all.params[..k] == g.params[..k];
    }
  }

  lemma SelectsOne(c: Cond, ps: seq<Value>, l: Ledgers, env: seq<Frame>)
    requires |ps| == Holes(c)
    ensures Fits(Fragment([c], ps))
    ensures Selects(Fragment([c], ps), l, env) <==> Eval(c, l, env, ps)
  {
    assert [c][1..] == [] && ps[..Holes(c)] == ps && ps[Holes(c)..] == [];
    assert AllHoles([c]) == Holes(c) + AllHoles([c][1..]);
    assert EvalAll([c][1..], l, env, ps[Holes(c)..]);
    assert EvalAll([c], l, env, ps) <==> Eval([c][0], l, env, ps[..Holes(c)]);
  }

  // ---- What the caller asks for ----

  datatype Filter = Filter(
    alertType: Option<string>, severity: Option<string>,
    vehicle: Option<string>, text: Option<string>,
    ackState: string, view: Option<string>, viewer: Option<int>, days: Option<int>)

  /** Python's truth of an optional string. */
  predicate Given(o: Option<string>) {
    o.Some? && o.value != ""
  }

  predicate ViewIs(f: Filter, name: string) {
    f.view == Some(name)
  }

  predicate Personal(f: Filter) {
    ViewIs(f, "new") || ViewIs(f, "all") || ViewIs(f, "mine_working")
  }

  const DAY := 86400

  predicate Windowed(f: Filter) {
    f.days.Some? && f.days.value != 0
  }

  function Cutoff(f: Filter, now: int): int
    requires Windowed(f)
  {
    now - f.days.value * DAY
  }

  predicate Space(c: char) {
    c == ' ' || c == '\t' || c == '\n' || c == '\r'
  }

  function Strip(s: string): string {
    if s == "" then ""
    else if Space(s[0]) then Strip(s[1..])
    else if Space(s[|s| - 1]) then Strip(s[..|s| - 1])
    else s
  }

  /** str.split(","): always at least one piece. */
  function Split(raw: string): (pieces: seq<string>)
    ensures pieces != []
  {
    if raw == "" then [""]
    else
      var more := Split(raw[1..]);
      if raw[0] == ',' then [""] + more else [[raw[0]] + more[0]] + more[1..]
  }

  /** `value` is one of the comma-separated choices. */
  predicate Chosen(raw: string, value: string) {
    value != "" && exists k | 0 <= k < |Split(raw)| :: Strip(Split(raw)[k]) == value
  }

  ghost predicate HasSeen(l: Ledgers, account: int, alert: int, viewer: Option<int>) {
    exists r | r in l.seen :: r.account == account && r.alert == alert && (viewer.Some? ==> r.user == viewer.value)
  }

  ghost predicate WorksOn(l: Ledgers, account: int, alert: int, user: int) {
    exists r | r in l.workers :: r.account == account && r.alert == alert && r.user == user
  }

  predicate Open(h: HistoryRow) {
    h.status == "active"
  }

  /** The tab: a personal view overrides the acknowledgement state. */
  ghost predicate OnTab(f: Filter, l: Ledgers, id: int, h: HistoryRow) {
    if ViewIs(f, "new") then !HasSeen(l, h.account, id, f.viewer)
    else if ViewIs(f, "mine_working") then f.viewer.Some? && WorksOn(l, h.account, id, f.viewer.value)
    else if ViewIs(f, "all") then true
    else if f.ackState == "active" then Open(h)
    else if f.ackState == "acknowledged" then !Open(h)
    else true
  }

  /** The date window bounds resolved history, never open work, on every tab alike. */
  predicate InWindow(f: Filter, now: int, h: HistoryRow) {
    Windowed(f) ==> Open(h) || h.firstSeen >= Cutoff(f, now)
  }

  predicate MatchesText(f: Filter, h: HistoryRow) {
    Given(f.text) ==>
      || Contains(Lower(h.vehicleName), Lower(f.text.value))
      || Contains(Lower(if h.location.Some? then h.location.value else ""), Lower(f.text.value))
  }

  predicate MatchesVehicle(f: Filter, h: HistoryRow) {
    Given(f.vehicle) ==> TextSearch.Like(Lower(h.vehicleName), "%" + Lower(f.vehicle.value) + "%")
  }

  /** The row the caller means, with no reference to clauses or parameters. */
  ghost predicate Wanted(f: Filter, now: int, l: Ledgers, id: int, h: HistoryRow) {
    && OnTab(f, l, id, h)
    && InWindow(f, now, h)
    && (Given(f.alertType) ==> Chosen(f.alertType.value, h.alertType))
    && (Given(f.severity) ==> Chosen(f.severity.value, h.severity))
    && MatchesVehicle(f, h)
    && MatchesText(f, h)
  }

  // ---- What the compiler emits ----

  function Outer(alias: string): string {
    if alias != "" then alias else "alert_history"
  }

  function Correlated(inner: string, alias: string): (c: Cond)
    ensures Holes(c) == 0
  {
    var account := Eq(Col(inner, "account_id"), Col(Outer(alias), "account_id"));
    var alert := Eq(Col(inner, "alert_history_id"), Col(Outer(alias), "id"));
    assert Holes(account) == 0 && Holes(alert) == 0;
    And(account, alert)
  }

  function Mine(inner: string, alias: string): (c: Cond)
    ensures Holes(c) == 1
  {
    var user := Eq(Col(inner, "user_id"), Param);
    assert Holes(user) == 1;
    And(Correlated(inner, alias), user)
  }

  function OpenCond(alias: string): Cond {
    Eq(Col(alias, "status"), Const(Text("active")))
  }

  function SinceCond(alias: string): Cond {
    Ge(Col(alias, "first_seen"), Param)
  }

  function TabPart(f: Filter, alias: string): Fragment {
    if ViewIs(f, "new") then
      if f.viewer.Some? then Fragment([Not(Exists(SeenTable, "sn", Mine("sn", alias)))], [Num(f.viewer.value)])
      else Fragment([Not(Exists(SeenTable, "sn", Correlated("sn", alias)))], [])
    else if ViewIs(f, "mine_working") then
      if f.viewer.Some? then Fragment([Exists(WorkersTable, "wk", Mine("wk", alias))], [Num(f.viewer.value)])
      else NEVER
    else if ViewIs(f, "all") then NOTHING
    else if f.ackState == "active" then Fragment([OpenCond(alias)], [])
    else if f.ackState == "acknowledged" then Fragment([Ne(Col(alias, "status"), Const(Text("active")))], [])
    else NOTHING
  }

  function WindowPart(f: Filter, now: int, alias: string): Fragment {
    if !Windowed(f) then NOTHING
    else
      var cut := [Num(Cutoff(f, now))];
      if Personal(f) then Fragment([Or(OpenCond(alias), SinceCond(alias))], cut)
      else if f.ackState == "acknowledged" then Fragment([SinceCond(alias)], cut)
      else if f.ackState != "active" then Fragment([Or(OpenCond(alias), SinceCond(alias))], cut)
      else NOTHING
  }

  function NonEmpty(pieces: seq<string>): (r: seq<string>)
    ensures forall v :: v in r <==> v != "" && exists k | 0 <= k < |pieces| :: Strip(pieces[k]) == v
  {
    if pieces == [] then []
    else
      var more := NonEmpty(pieces[1..]);
      var v := Strip(pieces[0]);
      if v != "" then [v] + more else more
  }

  function AsText(values: seq<string>): (r: seq<Value>)
    ensures |r| == |values| && forall k | 0 <= k < |r| :: r[k] == Text(values[k])
  {
    seq(|values|, k requires 0 <= k < |values| => Text(values[k]))
  }

  function InPart(column: string, o: Option<string>, alias: string): Fragment {
    if !Given(o) then NOTHING
    else
      var values := NonEmpty(Split(o.value));
      if values == [] then NEVER
      else if |values| == 1 then Fragment([Eq(Col(alias, column), Param)], [Text(values[0])])
      else Fragment([InParams(Col(alias, column), |values|)], AsText(values))
  }

  function VehiclePart(f: Filter, alias: string): Fragment {
    if !Given(f.vehicle) then NOTHING
    else Fragment([LikeDefault(LowerOf(Col(alias, "vehicle_name")), Param)],
                  [Text("%" + Lower(f.vehicle.value) + "%")])
  }

  function TextPart(f: Filter, alias: string): Fragment {
    if !Given(f.text) then NOTHING
    else
      var needle := Text("%" + TextSearch.Escape(Lower(f.text.value)) + "%");
      Fragment([Or(LikeEscaped(LowerOf(Col(alias, "vehicle_name")), Param),
                   LikeEscaped(LowerOf(OrEmpty(Col(alias, "location"))), Param))],
               [needle, needle])
  }

  function Compiled(f: Filter, now: int, alias: string): Fragment {
    TabPart(f, alias)
    .Plus(WindowPart(f, now, alias))
    .Plus(InPart("alert_type", f.alertType, alias))
    .Plus(InPart("severity", f.severity, alias))
    .Plus(VehiclePart(f, alias))
    .Plus(TextPart(f, alias))
  }

  /** The clause list and parameter list, built by appending as the code does: the tab,
      the date window, the two multi-select columns, the vehicle and the search box. */
  method Compile(f: Filter, now: int, alias: string) returns (clauses: seq<Cond>, params: seq<Value>)
    requires alias != "sn" && alias != "wk"
    ensures Fragment(clauses, params) == Compiled(f, now, alias)
  {
    clauses, params := TabClause([], [], f, alias);
    clauses, params := WindowClause(clauses, params, f, now, alias);
    PlusNothing(TabPart(f, alias));
    PlusNothing(Fragment(clauses, params));
    if Given(f.alertType) {
      clauses, params := InClause(clauses, params, "alert_type", f.alertType.value, alias);
    }
    PlusNothing(Fragment(clauses, params));
    if Given(f.severity) {
      clauses, params := InClause(clauses, params, "severity", f.severity.value, alias);
    }
    clauses, params := TextClauses(clauses, params, f, alias);
  }

  method TabClause(clauses: seq<Cond>, params: seq<Value>, f: Filter, alias: string)
    returns (clauses': seq<Cond>, params': seq<Value>)
    ensures Fragment(clauses', params') == Fragment(clauses, params).Plus(TabPart(f, alias))
  {
    clauses', params' := clauses, params;
    if ViewIs(f, "new") {
      var where := Correlated("sn", alias);
      if f.viewer.Some? {
        where := And(where, Eq(Col("sn", "user_id"), Param));
        params' := params' + [Num(f.viewer.value)];
      }
      clauses' := clauses' + [Not(Exists(SeenTable, "sn", where))];
    } else if ViewIs(f, "mine_working") && f.viewer.Some? {
      clauses' := clauses' + [Exists(WorkersTable, "wk", Mine("wk", alias))];
      params' := params' + [Num(f.viewer.value)];
    } else if ViewIs(f, "mine_working") {
      clauses' := clauses' + [Eq(Const(Num(1)), Const(Num(0)))];
    } else if ViewIs(f, "all") {
    } else if f.ackState == "active" {
      clauses' := clauses' + [OpenCond(alias)];
    } else if f.ackState == "acknowledged" {
      clauses' := clauses' + [Ne(Col(alias, "status"), Const(Text("active")))];
    }
  }

  method WindowClause(clauses: seq<Cond>, params: seq<Value>, f: Filter, now: int, alias: string)
    returns (clauses': seq<Cond>, params': seq<Value>)
    ensures Fragment(clauses', params') == Fragment(clauses, params).Plus(WindowPart(f, now, alias))
  {
    clauses', params' := clauses, params;
    if Windowed(f) {
      var cutoff := now - f.days.value * DAY;
      if Personal(f) {
        clauses' := clauses' + [Or(OpenCond(alias), SinceCond(alias))];
        params' := params' + [Num(cutoff)];
      } else if f.ackState == "acknowledged" {
        clauses' := clauses' + [SinceCond(alias)];
        params' := params' + [Num(cutoff)];
      } else if f.ackState != "active" {
        clauses' := clauses' + [Or(OpenCond(alias), SinceCond(alias))];
        params' := params' + [Num(cutoff)];
      }
    }
  }

  method TextClauses(clauses: seq<Cond>, params: seq<Value>, f: Filter, alias: string)
    returns (clauses': seq<Cond>, params': seq<Value>)
    ensures Fragment(clauses', params') ==
            Fragment(clauses, params).Plus(VehiclePart(f, alias)).Plus(TextPart(f, alias))
  {
    clauses', params' := clauses, params;
    if Given(f.vehicle) {
      clauses' := clauses' + [LikeDefault(LowerOf(Col(alias, "vehicle_name")), Param)];
      params' := params' + [Text("%" + Lower(f.vehicle.value) + "%")];
    }
    if Given(f.text) {
      var needle := Text("%" + TextSearch.Escape(Lower(f.text.value)) + "%");
      clauses' := clauses' + [Or(LikeEscaped(LowerOf(Col(alias, "vehicle_name")), Param),
                                 LikeEscaped(LowerOf(OrEmpty(Col(alias, "location"))), Param))];
      params' := params' + [needle, needle];
    }
  }

  /** The nested helper that appends a one-value or many-value test. */
  method InClause(clauses: seq<Cond>, params: seq<Value>, column: string, raw: string, alias: string)
    returns (clauses': seq<Cond>, params': seq<Value>)
    requires raw != ""
    ensures Fragment(clauses', params') == Fragment(clauses, params).Plus(InPart(column, Some(raw), alias))
  {
    var values, pieces := [], Split(raw);
    for k := 0 to |pieces|
      invariant values + NonEmpty(pieces[k..]) == NonEmpty(pieces)
    {
      assert pieces[k..][1..] == pieces[k + 1..];
      if Strip(pieces[k]) != "" {
        values := values + [Strip(pieces[k])];
      }
    }
    if values == [] {
      return clauses + [Eq(Const(Num(1)), Const(Num(0)))], params;
    }
    if |values| == 1 {
      return clauses + [Eq(Col(alias, column), Param)], params + [Text(values[0])];
    }
    return clauses + [InParams(Col(alias, column), |values|)], params + AsText(values);
  }

  // ---- The compiled fragment means what the caller asked for ----

  /** The scope a fragment is evaluated in: the alert under its alias, or under the
      table's own name when there is none, then whatever the query joined to it. */
  function Scope(alias: string, id: int, h: HistoryRow, joined: seq<Frame>): seq<Frame> {
    [Frame(Outer(alias), Alert(id, h))] + joined
  }

  lemma OwnColumn(alias: string, id: int, h: HistoryRow, joined: seq<Frame>, name: string)
    requires Field(Alert(id, h), name).Some?
    ensures Resolve(Scope(alias, id, h, joined), alias, name) == Field(Alert(id, h), name).value
    ensures Resolve(Scope(alias, id, h, joined), Outer(alias), name) == Field(Alert(id, h), name).value
  {
  }

  /** Inside EXISTS a qualified column still names the outer row. */
  lemma OuterColumn(inner: Frame, alias: string, id: int, h: HistoryRow, joined: seq<Frame>, name: string)
    requires Field(Alert(id, h), name).Some? && inner.alias != Outer(alias)
    ensures Resolve([inner] + Scope(alias, id, h, joined), Outer(alias), name) == Field(Alert(id, h), name).value
  {
    assert ([inner] + Scope(alias, id, h, joined))[1..] == Scope(alias, id, h, joined);
  }

  lemma CorrelatedMeans(inner: string, r: PersonRow, alias: string, l: Ledgers, id: int, h: HistoryRow,
                        joined: seq<Frame>)
    requires inner == "sn" || inner == "wk"
    requires alias != "sn" && alias != "wk"
    ensures Holes(Correlated(inner, alias)) == 0
    ensures Eval(Correlated(inner, alias), l, [Frame(inner, Person(r))] + Scope(alias, id, h, joined), [])
       <==> r.account == h.account && r.alert == id
  {
    var frame := Frame(inner, Person(r));
    OuterColumn(frame, alias, id, h, joined, "account_id");
    OuterColumn(frame, alias, id, h, joined, "id");
  }

  lemma MineMeans(inner: string, r: PersonRow, user: int, alias: string, l: Ledgers, id: int, h: HistoryRow,
                  joined: seq<Frame>)
    requires inner == "sn" || inner == "wk"
    requires alias != "sn" && alias != "wk"
    ensures Holes(Mine(inner, alias)) == 1
    ensures Eval(Mine(inner, alias), l, [Frame(inner, Person(r))] + Scope(alias, id, h, joined), [Num(user)])
       <==> r.account == h.account && r.alert == id && r.user == user
  {
    CorrelatedMeans(inner, r, alias, l, id, h, joined);
    assert [Num(user)][..0] == [] && [Num(user)][0..] == [Num(user)];
  }

  lemma LoweredColumn(e: Expr, env: seq<Frame>)
    requires e.Col? || (e.OrEmpty? && e.e.Col?)
    ensures ExprHoles(e) == 0 && ExprHoles(LowerOf(e)) == 0
    ensures var v := if e.Col? then Resolve(env, e.qualifier, e.name) else Resolve(env, e.e.qualifier, e.e.name);
            var w := if e.OrEmpty? && v.Null? then Text("") else v;
            EvalExpr(LowerOf(e), env, []) == if w.Text? then Text(Lower(w.s)) else Null
  {
    if e.OrEmpty? {
      assert ExprHoles(e.e) == 0;
      assert EvalExpr(e.e, env, []) == Resolve(env, e.e.qualifier, e.e.name);
    }
    assert ExprHoles(e) == 0;
    assert EvalExpr(LowerOf(e), env, []) == var w := EvalExpr(e, env, []); if w.Text? then Text(Lower(w.s)) else Null;
  }

  lemma TabMeans(f: Filter, alias: string, l: Ledgers, id: int, h: HistoryRow, joined: seq<Frame>)
    requires alias != "sn" && alias != "wk"
    ensures Fits(TabPart(f, alias))
    ensures Selects(TabPart(f, alias), l, Scope(alias, id, h, joined)) <==> OnTab(f, l, id, h)
  {
    var env, g := Scope(alias, id, h, joined), TabPart(f, alias);
    if g != NOTHING {
      OwnColumn(alias, id, h, joined, "status");
      if ViewIs(f, "new") {
        SeenMeans(f.viewer, alias, l, id, h, joined);
      } else if ViewIs(f, "mine_working") && f.viewer.Some? {
        WorksMeans(f.viewer.value, alias, l, id, h, joined);
      }
      SelectsOne(g.clauses[0], g.params, l, env);
    }
  }

  lemma SeenMeans(viewer: Option<int>, alias: string, l: Ledgers, id: int, h: HistoryRow, joined: seq<Frame>)
    requires alias != "sn" && alias != "wk"
    ensures var env := Scope(alias, id, h, joined);
            && Holes(Mine("sn", alias)) == 1 && Holes(Correlated("sn", alias)) == 0
            && (viewer.Some? ==>
                  (Eval(Exists(SeenTable, "sn", Mine("sn", alias)), l, env, [Num(viewer.value)])
                   <==> HasSeen(l, h.account, id, viewer)))
            && (viewer.None? ==>
                  (Eval(Exists(SeenTable, "sn", Correlated("sn", alias)), l, env, [])
                   <==> HasSeen(l, h.account, id, viewer)))
  {
    var env := Scope(alias, id, h, joined);
    forall r: PersonRow
      ensures Eval(Correlated("sn", alias), l, [Frame("sn", Person(r))] + env, [])
         <==> r.account == h.account && r.alert == id
    {
      CorrelatedMeans("sn", r, alias, l, id, h, joined);
    }
    if viewer.Some? {
      forall r: PersonRow
        ensures Eval(Mine("sn", alias), l, [Frame("sn", Person(r))] + env, [Num(viewer.value)])
           <==> r.account == h.account && r.alert == id && r.user == viewer.value
      {
        MineMeans("sn", r, viewer.value, alias, l, id, h, joined);
      }
    }
  }

  lemma WorksMeans(user: int, alias: string, l: Ledgers, id: int, h: HistoryRow, joined: seq<Frame>)
    requires alias != "sn" && alias != "wk"
    ensures Holes(Mine("wk", alias)) == 1
    ensures Eval(Exists(WorkersTable, "wk", Mine("wk", alias)), l, Scope(alias, id, h, joined), [Num(user)])
       <==> WorksOn(l, h.account, id, user)
  {
    forall r: PersonRow
      ensures Eval(Mine("wk", alias), l, [Frame("wk", Person(r))] + Scope(alias, id, h, joined), [Num(user)])
         <==> r.account == h.account && r.alert == id && r.user == user
    {
      MineMeans("wk", r, user, alias, l, id, h, joined);
    }
  }

  /** A comparison of an expression without placeholders with one parameter. */
  lemma ComparedToParam(c: Cond, l: Ledgers, env: seq<Frame>, p: Value)
    requires c.Eq? || c.Ge? || c.LikeDefault?
    requires ExprHoles(c.a) == 0 && c.b == Param
    ensures Holes(c) == 1
    ensures Eval(c, l, env, [p]) <==> Compare(c, EvalExpr(c.a, env, []), p)
  {
    assert [p][..0] == [] && [p][0..] == [p];
  }

  lemma WindowClausesMean(cut: int, alias: string, l: Ledgers, id: int, h: HistoryRow, joined: seq<Frame>)
    ensures var env := Scope(alias, id, h, joined);
            && Holes(SinceCond(alias)) == 1 && Holes(OpenCond(alias)) == 0
            && (Eval(SinceCond(alias), l, env, [Num(cut)]) <==> h.firstSeen >= cut)
            && (Eval(Or(OpenCond(alias), SinceCond(alias)), l, env, [Num(cut)]) <==> Open(h) || h.firstSeen >= cut)
  {
    var env := Scope(alias, id, h, joined);
    OwnColumn(alias, id, h, joined, "status");
    OwnColumn(alias, id, h, joined, "first_seen");
    ComparedToParam(SinceCond(alias), l, env, Num(cut));
    assert [Num(cut)][..0] == [] && [Num(cut)][0..] == [Num(cut)];
  }

  lemma WindowMeans(f: Filter, now: int, alias: string, l: Ledgers, id: int, h: HistoryRow, joined: seq<Frame>)
    ensures Fits(WindowPart(f, now, alias))
    ensures OnTab(f, l, id, h) ==>
              (Selects(WindowPart(f, now, alias), l, Scope(alias, id, h, joined)) <==> InWindow(f, now, h))
  {
    if Windowed(f) {
      var cut := Cutoff(f, now);
      WindowClausesMean(cut, alias, l, id, h, joined);
      SelectsOne(SinceCond(alias), [Num(cut)], l, Scope(alias, id, h, joined));
      SelectsOne(Or(OpenCond(alias), SinceCond(alias)), [Num(cut)], l, Scope(alias, id, h, joined));
    }
  }

  lemma AsTextHas(values: seq<string>, v: string)
    ensures v in values <==> Text(v) in AsText(values)
  {
    if Text(v) in AsText(values) {
      var k :| 0 <= k < |values| && AsText(values)[k] == Text(v);
      assert values[k] == v;
    }
  }

  /** One value or many, the clause asks whether the column's value is among them. */
  lemma InClauseMeans(column: string, values: seq<string>, alias: string, l: Ledgers, id: int, h: HistoryRow,
                      joined: seq<Frame>)
    requires column == "alert_type" || column == "severity"
    ensures var v := if column == "alert_type" then h.alertType else h.severity;
            var env := Scope(alias, id, h, joined);
            && (|values| == 1 ==> (Eval(Eq(Col(alias, column), Param), l, env, [Text(values[0])]) <==> v in values))
            && (|values| > 1 ==> Holes(InParams(Col(alias, column), |values|)) == |values| &&
                                 (Eval(InParams(Col(alias, column), |values|), l, env, AsText(values)) <==>
                                     v in values))
  {
    var v := if column == "alert_type" then h.alertType else h.severity;
    var env, ps := Scope(alias, id, h, joined), AsText(values);
    OwnColumn(alias, id, h, joined, column);
    AsTextHas(values, v);
    if |values| == 1 {
      ComparedToParam(Eq(Col(alias, column), Param), l, env, Text(values[0]));
    } else {
      assert ps[..0] == [] && ps[0..] == ps;
    }
  }

  lemma InMeans(column: string, o: Option<string>, alias: string, l: Ledgers, id: int, h: HistoryRow,
                joined: seq<Frame>)
    requires column == "alert_type" || column == "severity"
    ensures Fits(InPart(column, o, alias))
    ensures Selects(InPart(column, o, alias), l, Scope(alias, id, h, joined)) <==>
            (Given(o) ==> Chosen(o.value, if column == "alert_type" then h.alertType else h.severity))
  {
    var g := InPart(column, o, alias);
    if g != NOTHING {
      var values := NonEmpty(Split(o.value));
      assert Chosen(o.value, if column == "alert_type" then h.alertType else h.severity) <==>
             (if column == "alert_type" then h.alertType else h.severity) in values;
      InClauseMeans(column, values, alias, l, id, h, joined);
      SelectsOne(g.clauses[0], g.params, l, Scope(alias, id, h, joined));
    }
  }

  lemma VehicleClauseMeans(pattern: string, alias: string, l: Ledgers, id: int, h: HistoryRow, joined: seq<Frame>)
    ensures var c := LikeDefault(LowerOf(Col(alias, "vehicle_name")), Param);
            Holes(c) == 1 && (Eval(c, l, Scope(alias, id, h, joined), [Text(pattern)]) <==>
                              TextSearch.Like(Lower(h.vehicleName), pattern))
  {
    OwnColumn(alias, id, h, joined, "vehicle_name");
    LoweredColumn(Col(alias, "vehicle_name"), Scope(alias, id, h, joined));
    ComparedToParam(LikeDefault(LowerOf(Col(alias, "vehicle_name")), Param), l, Scope(alias, id, h, joined),
        Text(pattern));
  }

  lemma VehicleMeans(f: Filter, alias: string, l: Ledgers, id: int, h: HistoryRow, joined: seq<Frame>)
    ensures Fits(VehiclePart(f, alias))
    ensures Selects(VehiclePart(f, alias), l, Scope(alias, id, h, joined)) <==> MatchesVehicle(f, h)
  {
    if Given(f.vehicle) {
      var pattern := "%" + Lower(f.vehicle.value) + "%";
      VehicleClauseMeans(pattern, alias, l, id, h, joined);
      SelectsOne(LikeDefault(LowerOf(Col(alias, "vehicle_name")), Param), [Text(pattern)], l,
                 Scope(alias, id, h, joined));
    }
  }

  lemma TextMeans(f: Filter, alias: string, l: Ledgers, id: int, h: HistoryRow, joined: seq<Frame>)
    ensures Fits(TextPart(f, alias))
    ensures Selects(TextPart(f, alias), l, Scope(alias, id, h, joined)) <==> MatchesText(f, h)
  {
    var g := TextPart(f, alias);
    if g != NOTHING {
      OwnColumn(alias, id, h, joined, "vehicle_name");
      OwnColumn(alias, id, h, joined, "location");
      LoweredColumn(Col(alias, "vehicle_name"), Scope(alias, id, h, joined));
      LoweredColumn(OrEmpty(Col(alias, "location")), Scope(alias, id, h, joined));
      var text := Lower(f.text.value);
      TextSearch.EscapedSearchIsContains(text, Lower(h.vehicleName));
      TextSearch.EscapedSearchIsContains(text, Lower(if h.location.Some? then h.location.value else ""));
      assert g.params[..1] == [g.params[0]] && g.params[1..] == [g.params[1]];
      assert [g.params[0]][..0] == [] && [g.params[0]][0..] == [g.params[0]];
      SelectsOne(g.clauses[0], g.params, l, Scope(alias, id, h, joined));
    }
  }

  /** For every filter and every scope, with or without an alias, the clauses evaluated
      with their positional parameters select exactly the rows the caller asked for. */
  lemma CompiledMeansWanted(f: Filter, now: int, alias: string, l: Ledgers, id: int, h: HistoryRow, joined: seq<Frame>)
    requires alias != "sn" && alias != "wk"
    ensures Selects(Compiled(f, now, alias), l, Scope(alias, id, h, joined)) <==> Wanted(f, now, l, id, h)
  {
    var env := Scope(alias, id, h, joined);
    var tab, window := TabPart(f, alias), WindowPart(f, now, alias);
    var types, sevs := InPart("alert_type", f.alertType, alias), InPart("severity", f.severity, alias);
    var vehicle, text := VehiclePart(f, alias), TextPart(f, alias);
    TabMeans(f, alias, l, id, h, joined);
    WindowMeans(f, now, alias, l, id, h, joined);
    InMeans("alert_type", f.alertType, alias, l, id, h, joined);
    InMeans("severity", f.severity, alias, l, id, h, joined);
    VehicleMeans(f, alias, l, id, h, joined);
    TextMeans(f, alias, l, id, h, joined);
    SelectsPlus(tab, window, l, env);
    SelectsPlus(tab.Plus(window), types, l, env);
    SelectsPlus(tab.Plus(window).Plus(types), sevs, l, env);
    SelectsPlus(tab.Plus(window).Plus(types).Plus(sevs), vehicle, l, env);
    SelectsPlus(tab.Plus(window).Plus(types).Plus(sevs).Plus(vehicle), text, l, env);
  }
}
