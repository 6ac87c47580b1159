/** Re-encrypting stored secrets under a new key (scripts/rotate_encryption_key.py).

    The cipher is abstract and authenticated: a token opens only under the key that made it,
    and two tokens for one text under one key are not told apart. */
module KeyRotation {
  import opened Common

  type Key = string

  datatype Token = Sealed(key: Key, text: string) | Damaged(bytes: string)

  /** A column value: NULL, text without the "enc::" prefix, or the prefix and a token. */
  datatype Value = Null | Plain(text: string) | Enc(token: Token)

  /** Where a value is: the three listed columns, and every other one. */
  datatype Cell =
    | CompanyKey(id: int)
    | BotToken(id: int)
    | Setting(account: int, name: string)
    | Elsewhere(table: string, id: int)

  type Db = map<Cell, Value>

  const DRIVE_TOKEN := "storage.gdrive.refresh_token"

  datatype Target = Companies | Accounts | AccountSettings

  const TARGETS: seq<Target> := [Companies, Accounts, AccountSettings]

  predicate Covers(t: Target, c: Cell) {
    match t
    case Companies => c.CompanyKey?
    case Accounts => c.BotToken?
    case AccountSettings => c.Setting? && c.name == DRIVE_TOKEN
  }

  function Decrypt(key: Key, token: Token): Option<string> {
    if token.Sealed? && token.key == key then Some(token.text) else None
  }

  function Encrypt(key: Key, text: string): Token {
    Sealed(key, text)
  }

  /** What the application reads from a column with this key (infra/crypto.py, decrypt);
      None where that raises. */
  function Read(key: Key, v: Value): Option<string> {
    match v
    case Null => Some("")
    case Plain(text) => Some(text)
    case Enc(token) => Decrypt(key, token)
  }

  datatype Class = ToRotate | AlreadyNew | Unknown

  function Classify(old_: Key, new_: Key, token: Token): Class {
    if Decrypt(old_, token).Some? then ToRotate
    else if Decrypt(new_, token).Some? then AlreadyNew
    else Unknown
  }

  /** The cells a target's SELECT returns. */
  function Selected(db: Db, t: Target): set<Cell> {
    set c | c in db && Covers(t, c) && db[c].Enc?
  }

  /** Those of these cells whose value is of class k. */
  function Part(db: Db, cells: set<Cell>, old_: Key, new_: Key, k: Class): set<Cell> {
    set c | c in cells && c in db && db[c].Enc? && Classify(old_, new_, db[c].token) == k
  }

  function OfClass(db: Db, t: Target, old_: Key, new_: Key, k: Class): set<Cell> {
    Part(db, Selected(db, t), old_, new_, k)
  }

  /** The value after rotation, if it is one that rotates. */
  function Rotated(old_: Key, new_: Key, v: Value): Value {
    if v.Enc? && Decrypt(old_, v.token).Some? then Enc(Encrypt(new_, Decrypt(old_, v.token).value)) else v
  }

  function RotatedCells(db: Db, cells: set<Cell>, old_: Key, new_: Key): Db {
    map c | c in db :: if c in cells then Rotated(old_, new_, db[c]) else db[c]
  }

  lemma PartGrows(db: Db, cells: set<Cell>, old_: Key, new_: Key, c: Cell, k: Class)
    requires c in db && db[c].Enc? && c !in cells
    ensures var was := Part(db, cells, old_, new_, k);
            var now := Part(db, cells + {c}, old_, new_, k);
            if Classify(old_, new_, db[c].token) == k then now == was + {c} && |now| == |was| + 1 else now == was
  {
    var was := Part(db, cells, old_, new_, k);
    var now := Part(db, cells + {c}, old_, new_, k);
    assert c !in was;
    if Classify(old_, new_, db[c].token) == k {
      assert now == was + {c};
    } else {
      assert now == was;
    }
  }

  /** The cells once these have been handled. */
  function After(db: Db, cells: set<Cell>, old_: Key, new_: Key, apply: bool): Db {
    if apply then RotatedCells(db, cells, old_, new_) else db
  }

  lemma RotateNone(db: Db, old_: Key, new_: Key)
    ensures RotatedCells(db, {}, old_, new_) == db
    ensures Counts(db, {}, old_, new_) == Outcome(0, 0, 0, {})
  {
  }

  datatype Outcome = Outcome(rotated: nat, alreadyNew: nat, plaintext: nat, unknown: set<Cell>)

  function Counts(db: Db, cells: set<Cell>, old_: Key, new_: Key): Outcome {
    Outcome(|Part(db, cells, old_, new_, ToRotate)|, |Part(db, cells, old_, new_, AlreadyNew)|, 0,
            Part(db, cells, old_, new_, Unknown))
  }

  function OutcomeOf(db: Db, t: Target, old_: Key, new_: Key): Outcome {
    Counts(db, Selected(db, t), old_, new_)
  }

  function OneMore(o: Outcome, k: Class, c: Cell): Outcome {
    match k
    case ToRotate => o.(rotated := o.rotated + 1)
    case AlreadyNew => o.(alreadyNew := o.alreadyNew + 1)
    case Unknown => o.(unknown := o.unknown + {c})
  }

  lemma CountsGrow(db: Db, cells: set<Cell>, old_: Key, new_: Key, c: Cell)
    requires c in db && db[c].Enc? && c !in cells
    ensures Counts(db, cells + {c}, old_, new_) ==
            OneMore(Counts(db, cells, old_, new_), Classify(old_, new_, db[c].token), c)
  {
    PartGrows(db, cells, old_, new_, c, ToRotate);
    PartGrows(db, cells, old_, new_, c, AlreadyNew);
    PartGrows(db, cells, old_, new_, c, Unknown);
  }

  /** A cell once it has been handled. */
  function Handled(old_: Key, new_: Key, apply: bool, v: Value): Value {
    if apply then Rotated(old_, new_, v) else v
  }

  lemma AfterGrows(db: Db, cells: set<Cell>, old_: Key, new_: Key, apply: bool, c: Cell)
    requires c in db && c !in cells
    ensures var was := After(db, cells, old_, new_, apply);
            && c in was && was[c] == db[c]
            && After(db, cells + {c}, old_, new_, apply) == was[c := Handled(old_, new_, apply, db[c])]
  {
    if !apply {
      assert db[c := db[c]] == db;
    }
  }

  /** The cells of the listed columns. */
  predicate Listed(c: Cell) {
    exists t :: t in TARGETS && Covers(t, c)
  }

  /** Some listed value opens under neither key. */
  predicate Blocked(db: Db, old_: Key, new_: Key) {
    exists t :: t in TARGETS && OfClass(db, t, old_, new_, Unknown) != {}
  }

  function AllSelected(db: Db): set<Cell> {
    Selected(db, Companies) + Selected(db, Accounts) + Selected(db, AccountSettings)
  }

  datatype Mode = DryRun | Apply | Wrong

  /** Whether the run gets as far as the database. */
  predicate Accepted(mode: Mode, old_: Key, new_: Key) {
    !mode.Wrong? && old_ != "" && new_ != "" && old_ != new_
  }

  class Database {
    var cells: Db

    constructor (cells: Db)
      ensures this.cells == cells
    {
      this.cells := cells;
    }

    method ProcessRow(c: Cell, oldKey: Key, newKey: Key, apply: bool, out: Outcome) returns (out': Outcome)
      requires c in cells && cells[c].Enc?
      modifies this
      ensures out' == OneMore(out, Classify(oldKey, newKey, old(cells)[c].token), c)
      ensures cells == old(cells)[c := Handled(oldKey, newKey, apply, old(cells)[c])]
    {
      assert cells == cells[c := cells[c]];
      var token := cells[c].token;
      var plain := Decrypt(oldKey, token);
      if plain.Some? {
        if apply {
          cells := cells[c := Enc(Encrypt(newKey, plain.value))];
        }
        return out.(rotated := out.rotated + 1);
      }
      if Decrypt(newKey, token).Some? {
        return out.(alreadyNew := out.alreadyNew + 1);
      }
      return out.(unknown := out.unknown + {c});
    }

    /** The rows come in no particular order. */
    method ProcessTarget(t: Target, oldKey: Key, newKey: Key, apply: bool) returns (out: Outcome)
      modifies this
      ensures out == OutcomeOf(old(cells), t, oldKey, newKey)
      ensures cells == After(old(cells), Selected(old(cells), t), oldKey, newKey, apply)
    {
      var rows := Selected(cells, t);
      ghost var was, done: set<Cell> := cells, {};
      RotateNone(was, oldKey, newKey);
      out := Outcome(0, 0, 0, {});
      while rows != {}
        invariant rows !! done && rows + done == Selected(was, t)
        invariant out == Counts(was, done, oldKey, newKey)
        invariant cells == After(was, done, oldKey, newKey, apply)
        decreases rows
      {
        var c :| c in rows;
        CountsGrow(was, done, oldKey, newKey, c);
        AfterGrows(was, done, oldKey, newKey, apply, c);
        out := ProcessRow(c, oldKey, newKey, apply, out);
        rows, done := rows - {c}, done + {c};
      }
      assert done == Selected(was, t);
    }

    /** The whole run and its exit code; a rollback restores the cells of the transaction's
        start. */
    method Run(mode: Mode, oldKey: Key, newKey: Key) returns (code: int, totals: seq<Outcome>)
      modifies this
      ensures code == if !Accepted(mode, oldKey, newKey) then 2
          else if Blocked(old(cells), oldKey, newKey) then 1 else 0
      ensures cells == if code == 0 && mode.Apply?
                       then RotatedCells(old(cells), AllSelected(old(cells)), oldKey, newKey) else old(cells)
      ensures code == 2 <==> mode.Wrong? || oldKey == "" || newKey == "" || oldKey == newKey
      ensures code != 0 || mode != Apply ==> cells == old(cells)
      ensures code != 2 ==> totals == Totals(old(cells), |TARGETS|, oldKey, newKey)
    {
      totals := [];
      if mode.Wrong? || oldKey == "" || newKey == "" || oldKey == newKey {
        return 2, [];
      }
      var apply := mode.Apply?;
      var start := cells;
      RotateNone(start, oldKey, newKey);
      var anyUnknown := 0;
      for i := 0 to |TARGETS|
        invariant totals == Totals(start, i, oldKey, newKey)
        invariant anyUnknown == UnknownCount(start, i, oldKey, newKey)
        invariant cells == After(start, FirstSelected(start, i), oldKey, newKey, apply)
      {
        EarlierTargetsDoNotMatter(start, i, oldKey, newKey);
        var outcome := ProcessTarget(TARGETS[i], oldKey, newKey, apply);
        totals := totals + [outcome];
        anyUnknown := anyUnknown + |outcome.unknown|;
      }
      BlockedByTotals(start, oldKey, newKey);
      if anyUnknown != 0 {
        if apply {
          cells := start;
        }
        return 1, totals;
      }
      return 0, totals;
    }
  }

  function Totals(db: Db, n: nat, old_: Key, new_: Key): seq<Outcome>
    requires n <= |TARGETS|
  {
    if n == 0 then [] else Totals(db, n - 1, old_, new_) + [OutcomeOf(db, TARGETS[n - 1], old_, new_)]
  }

  function UnknownCount(db: Db, n: nat, old_: Key, new_: Key): nat
    requires n <= |TARGETS|
  {
    if n == 0 then 0 else UnknownCount(db, n - 1, old_, new_) + |OutcomeOf(db, TARGETS[n - 1], old_, new_).unknown|
  }

  lemma {:induction false} UnknownCountIsZeroIff(db: Db, n: nat, old_: Key, new_: Key)
    requires n <= |TARGETS|
    ensures UnknownCount(db, n, old_, new_) == 0 <==>
            forall i | 0 <= i < n :: OutcomeOf(db, TARGETS[i], old_, new_).unknown == {}
  {
    if n > 0 {
      UnknownCountIsZeroIff(db, n - 1, old_, new_);
    }
  }

  function FirstSelected(db: Db, n: nat): set<Cell>
    requires n <= |TARGETS|
  {
    if n == 0 then {} else FirstSelected(db, n - 1) + Selected(db, TARGETS[n - 1])
  }

  /** Rotating the first targets changes neither what the next one selects nor how its
      values classify. */
  lemma EarlierTargetsDoNotMatter(db: Db, n: nat, old_: Key, new_: Key)
    requires n < |TARGETS|
    ensures var db' := RotatedCells(db, FirstSelected(db, n), old_, new_);
            && OutcomeOf(db', TARGETS[n], old_, new_) == OutcomeOf(db, TARGETS[n], old_, new_)
            && RotatedCells(db', Selected(db', TARGETS[n]), old_, new_) ==
               RotatedCells(db, FirstSelected(db, n + 1), old_, new_)
  {
    var t := TARGETS[n];
    var db' := RotatedCells(db, FirstSelected(db, n), old_, new_);
    FirstSelectedIs(db, n);
    forall c | c in db && Covers(t, c) ensures db'[c] == db[c] {
    }
    assert Selected(db', t) == Selected(db, t);
    forall k: Class ensures OfClass(db', t, old_, new_, k) == OfClass(db, t, old_, new_, k) {
    }
    assert Counts(db', Selected(db', t), old_, new_) == Counts(db, Selected(db, t), old_, new_) by {
      assert OfClass(db', t, old_, new_, ToRotate) == OfClass(db, t, old_, new_, ToRotate);
      assert OfClass(db', t, old_, new_, AlreadyNew) == OfClass(db, t, old_, new_, AlreadyNew);
      assert OfClass(db', t, old_, new_, Unknown) == OfClass(db, t, old_, new_, Unknown);
    }
    assert FirstSelected(db, n + 1) == FirstSelected(db, n) + Selected(db, t);
  }

  lemma FirstSelectedIs(db: Db, n: nat)
    requires n <= |TARGETS|
    ensures forall c :: c in FirstSelected(db, n) <==> exists i | 0 <= i < n :: c in Selected(db, TARGETS[i])
    ensures n == |TARGETS| ==> FirstSelected(db, n) == AllSelected(db)
  {
    assert n >= 1 ==> FirstSelected(db, 1) == Selected(db, Companies);
    assert n >= 2 ==> FirstSelected(db, 2) == Selected(db, Companies) + Selected(db, Accounts);
    assert n >= 3 ==> FirstSelected(db, 3) == AllSelected(db);
  }

  lemma BlockedByTotals(db: Db, old_: Key, new_: Key)
    ensures Blocked(db, old_, new_) <==> UnknownCount(db, |TARGETS|, old_, new_) != 0
    ensures FirstSelected(db, |TARGETS|) == AllSelected(db)
  {
    FirstSelectedIs(db, |TARGETS|);
    UnknownCountIsZeroIff(db, |TARGETS|, old_, new_);
    forall i | 0 <= i < |TARGETS| ensures TARGETS[i] in TARGETS {
    }
    forall t | t in TARGETS && OfClass(db, t, old_, new_, Unknown) != {}
      ensures exists i | 0 <= i < |TARGETS| :: OutcomeOf(db, TARGETS[i], old_, new_).unknown != {}
    {
      var i :| 0 <= i < |TARGETS| && TARGETS[i] == t;
      assert OutcomeOf(db, TARGETS[i], old_, new_).unknown == OfClass(db, t, old_, new_, Unknown);
    }
    forall i | 0 <= i < |TARGETS| && OutcomeOf(db, TARGETS[i], old_, new_).unknown != {}
      ensures Blocked(db, old_, new_)
    {
      assert TARGETS[i] in TARGETS && OfClass(db, TARGETS[i], old_, new_, Unknown) != {};
    }
  }

  // ---- What a committed rotation means ----

  /** Every listed value that was readable under the old key, or already under the new one,
      reads the same under the new key; every other cell is untouched. */
  lemma CommitKeepsMeaning(db: Db, old_: Key, new_: Key, c: Cell)
    requires Accepted(Apply, old_, new_) && !Blocked(db, old_, new_) && c in db
    ensures var db' := RotatedCells(db, AllSelected(db), old_, new_);
            && db'.Keys == db.Keys
            && (Listed(c) && db[c].Enc? ==>
                  && Read(new_, db'[c]).Some? && Read(old_, db'[c]).None?
                  && (Read(new_, db'[c]) == Read(old_, db[c]) || Read(new_, db'[c]) == Read(new_, db[c])))
            && (!(Listed(c) && db[c].Enc?) ==> db'[c] == db[c])
  {
    ListedCells(c);
    forall t | t in TARGETS ensures c !in OfClass(db, t, old_, new_, Unknown) {
    }
    assert Companies in TARGETS && Accounts in TARGETS && AccountSettings in TARGETS;
  }

  lemma ListedCells(c: Cell)
    ensures Listed(c) <==> c.CompanyKey? || c.BotToken? || (c.Setting? && c.name == DRIVE_TOKEN)
  {
    assert TARGETS[0] == Companies && TARGETS[1] == Accounts && TARGETS[2] == AccountSettings;
    assert Companies in TARGETS && Accounts in TARGETS && AccountSettings in TARGETS;
    assert Covers(Companies, c) || Covers(Accounts, c) || Covers(AccountSettings, c) <==>
           c.CompanyKey? || c.BotToken? || (c.Setting? && c.name == DRIVE_TOKEN);
  }

  lemma AfterCommit(db: Db, old_: Key, new_: Key, u: Target)
    requires Accepted(Apply, old_, new_) && !Blocked(db, old_, new_) && u in TARGETS
    ensures var db' := RotatedCells(db, AllSelected(db), old_, new_);
            && Selected(db', u) == Selected(db, u)
            && OfClass(db', u, old_, new_, ToRotate) == {} == OfClass(db', u, old_, new_, Unknown)
            && OfClass(db', u, old_, new_, AlreadyNew) == Selected(db, u)
  {
    var db' := RotatedCells(db, AllSelected(db), old_, new_);
    assert OfClass(db, u, old_, new_, Unknown) == {};
    forall c | c in Selected(db, u) ensures c in Selected(db', u) && Classify(old_, new_, db'[c].token) == AlreadyNew {
      assert c in AllSelected(db);
      assert c !in OfClass(db, u, old_, new_, Unknown);
    }
    forall c | c in Selected(db', u) ensures c in Selected(db, u) {
    }
  }

  /** A second run rotates nothing, finds everything already done and leaves it. */
  lemma SecondRunRotatesNothing(db: Db, old_: Key, new_: Key)
    requires Accepted(Apply, old_, new_) && !Blocked(db, old_, new_)
    ensures var db' := RotatedCells(db, AllSelected(db), old_, new_);
            && (forall t | t in TARGETS :: OutcomeOf(db', t, old_, new_) == Outcome(0, |Selected(db, t)|, 0, {}))
            && !Blocked(db', old_, new_)
            && RotatedCells(db', AllSelected(db'), old_, new_) == db'
  {
    var db' := RotatedCells(db, AllSelected(db), old_, new_);
    forall t | t in TARGETS
      ensures OutcomeOf(db', t, old_, new_) == Outcome(0, |Selected(db, t)|, 0, {})
      ensures OfClass(db', t, old_, new_, Unknown) == {}
    {
      AfterCommit(db, old_, new_, t);
    }
    RotatedTwice(db, old_, new_);
  }

  lemma RotatedTwice(db: Db, old_: Key, new_: Key)
    requires old_ != new_
    ensures var db' := RotatedCells(db, AllSelected(db), old_, new_);
            RotatedCells(db', AllSelected(db'), old_, new_) == db'
  {
    var db' := RotatedCells(db, AllSelected(db), old_, new_);
    forall c | c in db' && c in AllSelected(db') ensures Rotated(old_, new_, db'[c]) == db'[c] {
      RotatedOnce(db, old_, new_, c);
    }
  }

  lemma RotatedOnce(db: Db, old_: Key, new_: Key, c: Cell)
    requires old_ != new_ && c in db && c in AllSelected(RotatedCells(db, AllSelected(db), old_, new_))
    ensures var v := RotatedCells(db, AllSelected(db), old_, new_)[c];
            Rotated(old_, new_, v) == v
  {
    assert c in AllSelected(db);
  }

  /** Switching the application to the new key after a committed run leaves every encrypted
      column readable exactly when no column off the list held a token of another key. */
  lemma SwitchIsSafeIff(db: Db, old_: Key, new_: Key)
    requires Accepted(Apply, old_, new_) && !Blocked(db, old_, new_)
    ensures var db' := RotatedCells(db, AllSelected(db), old_, new_);
            (forall c | c in db' :: Read(new_, db'[c]).Some?) <==>
            (forall c | c in db && !Listed(c) && db[c].Enc? :: Decrypt(new_, db[c].token).Some?)
  {
    var db' := RotatedCells(db, AllSelected(db), old_, new_);
    forall c | c in db
      ensures Read(new_, db'[c]).Some? <==> (Listed(c) || !db[c].Enc? || Decrypt(new_, db[c].token).Some?)
    {
      CommitKeepsMeaning(db, old_, new_, c);
    }
  }

  /** The script's own account of the encrypted columns is incomplete: one proposal summary
      is enough to be left unreadable. */
  lemma UnlistedColumnIsLost()
    ensures var db: Db := map[Elsewhere("ai_action_proposals", 1) := Enc(Sealed("k1", "s"))];
            && !Blocked(db, "k1", "k2")
            && Read("k2", RotatedCells(db, AllSelected(db), "k1", "k2")[Elsewhere("ai_action_proposals", 1)]).None?
  {
    assert "k1"[1] != "k2"[1];
  }

  // ---- A secret saved between a target's SELECT and its UPDATE ----

  /** What the UPDATEs leave of `now`: they write what was selected of `seen`, by key alone. */
  function Overwritten(seen: Db, now: Db, t: Target, old_: Key, new_: Key): Db {
    map c | c in now :: if c in OfClass(seen, t, old_, new_, ToRotate) then Rotated(old_, new_, seen[c]) else now[c]
  }

  /** With nothing saved in between that is the rotation of the target. */
  lemma NothingSavedIsRotation(db: Db, t: Target, old_: Key, new_: Key)
    ensures Overwritten(db, db, t, old_, new_) == RotatedCells(db, Selected(db, t), old_, new_)
  {
    forall c | c in db && c in Selected(db, t) && c !in OfClass(db, t, old_, new_, ToRotate)
      ensures Rotated(old_, new_, db[c]) == db[c]
    {
    }
  }

  /** A secret stands in the way of the switch when it was selected and has another text by the
      UPDATE, or was not and is encrypted by then. */
  predicate SavedMeanwhile(seen: Db, now: Db, t: Target, old_: Key, new_: Key, c: Cell)
    requires c in now
  {
    if c in OfClass(seen, t, old_, new_, ToRotate) then Read(old_, now[c]) != Read(old_, seen[c]) else now[c].Enc?
  }

  /** Of what the application could read under the old key just before the UPDATEs, everything
      reads the same under the new key exactly when nothing was saved meanwhile. */
  lemma SavedIsKeptIff(seen: Db, now: Db, t: Target, old_: Key, new_: Key)
    requires old_ != new_ && forall c | c in now && Covers(t, c) :: Read(old_, now[c]).Some?
    ensures var after := Overwritten(seen, now, t, old_, new_);
            (forall c | c in now && Covers(t, c) :: Read(new_, after[c]) == Read(old_, now[c])) <==>
            (forall c | c in now && Covers(t, c) :: !SavedMeanwhile(seen, now, t, old_, new_, c))
  {
    var after := Overwritten(seen, now, t, old_, new_);
    forall c | c in now && Covers(t, c)
      ensures Read(new_, after[c]) == Read(old_, now[c]) <==> !SavedMeanwhile(seen, now, t, old_, new_, c)
    {
    }
  }

  /** A secret saved in between is overwritten with the text it replaced. */
  lemma SavedSecretIsOverwritten(c: Cell, t: Target, old_: Key, new_: Key, was: string, saved: string)
    requires old_ != new_ && Covers(t, c) && was != saved
    ensures var seen, now := map[c := Enc(Encrypt(old_, was))], map[c := Enc(Encrypt(old_, saved))];
            Read(new_, Overwritten(seen, now, t, old_, new_)[c]) == Some(was)
  {
    var seen := map[c := Enc(Encrypt(old_, was))];
    assert c in Selected(seen, t);
  }

  // ---- Cell by cell ----

  /** The API key of a company, the bot token of an account, and one setting of an account. */
  predicate OnTheList(c: Cell) {
    c.CompanyKey? || c.BotToken? || (c.Setting? && c.name == "storage.gdrive.refresh_token")
  }

  predicate HoldsTokenOf(v: Value, key: Key) {
    v.Enc? && v.token.Sealed? && v.token.key == key
  }

  /** The cells of a target that hold a token of this key. */
  function TokensOf(db: Db, t: Target, key: Key): set<Cell> {
    set c | c in db && HoldsTokenOf(db[c], key) && (match t
                                                    case Companies => c.CompanyKey?
                                                    case Accounts => c.BotToken?
                                                    case AccountSettings => c.Setting? && OnTheList(c))
  }

  lemma ListedIs(c: Cell)
    ensures Listed(c) <==> OnTheList(c)
  {
    assert TARGETS[0] == Companies && TARGETS[1] == Accounts && TARGETS[2] == AccountSettings;
    var t := match c case CompanyKey(_) => Companies case BotToken(_) => Accounts case _ => AccountSettings;
    assert t in TARGETS && (OnTheList(c) ==> Covers(t, c));
  }

  /** A rotation replaces each listed token of the old key by one of the new key for the same text,
      and nothing else. */
  lemma RotatesInFields(db: Db, old_: Key, new_: Key, c: Cell)
    requires c in db
    ensures var db' := RotatedCells(db, AllSelected(db), old_, new_);
            && db'.Keys == db.Keys
            && db'[c] ==
               if OnTheList(c) && HoldsTokenOf(db[c], old_) then Enc(Sealed(new_, db[c].token.text)) else db[c]
  {
  }

  /** It is blocked exactly by a listed token that is of neither key, or damaged. */
  lemma BlockedIff(db: Db, old_: Key, new_: Key)
    ensures Blocked(db, old_, new_) <==>
            exists c | c in db :: OnTheList(c) && db[c].Enc? && !HoldsTokenOf(db[c], old_) && !HoldsTokenOf(db[c], new_)
  {
    assert TARGETS[0] == Companies && TARGETS[1] == Accounts && TARGETS[2] == AccountSettings;
    if Blocked(db, old_, new_) {
      var t :| t in TARGETS && OfClass(db, t, old_, new_, Unknown) != {};
      var c :| c in OfClass(db, t, old_, new_, Unknown);
      assert OnTheList(c);
    }
    if c :| c in db && OnTheList(c) && db[c].Enc? && !HoldsTokenOf(db[c], old_) && !HoldsTokenOf(db[c], new_) {
      var t := match c case CompanyKey(_) => Companies case BotToken(_) => Accounts case _ => AccountSettings;
      assert c in OfClass(db, t, old_, new_, Unknown);
    }
  }

  /** The counters of a target: the tokens of the old key, and those of the new one. */
  lemma CountsInFields(db: Db, t: Target, old_: Key, new_: Key)
    requires old_ != new_
    ensures var o := OutcomeOf(db, t, old_, new_);
            && o.rotated == |TokensOf(db, t, old_)| && o.alreadyNew == |TokensOf(db, t, new_)| && o.plaintext == 0
            && forall c :: c in o.unknown <==>
                 c in Selected(db, t) && !HoldsTokenOf(db[c], old_) && !HoldsTokenOf(db[c], new_)
  {
    assert OfClass(db, t, old_, new_, ToRotate) == TokensOf(db, t, old_);
    assert OfClass(db, t, old_, new_, AlreadyNew) == TokensOf(db, t, new_);
  }

  /** A target selects its own cells, if they are encrypted. */
  lemma SelectedIff(db: Db, c: Cell)
    ensures c in Selected(db, Companies) <==> c in db && c.CompanyKey? && db[c].Enc?
    ensures c in Selected(db, Accounts) <==> c in db && c.BotToken? && db[c].Enc?
    ensures c in Selected(db, AccountSettings) <==>
            c in db && c.Setting? && c.name == "storage.gdrive.refresh_token" && db[c].Enc?
  {
  }

  /** NULL reads as the empty string, plain text as itself, a token as its text under its own key,
      and not at all under another. */
  lemma ReadsInFields(key: Key, v: Value)
    ensures v.Null? ==> Read(key, v) == Some("")
    ensures v.Plain? ==> Read(key, v) == Some(v.text)
    ensures v.Enc? && HoldsTokenOf(v, key) ==> Read(key, v) == Some(v.token.text)
    ensures v.Enc? && !HoldsTokenOf(v, key) ==> Read(key, v) == None
  {
  }
}
