/** Which rows still lead to their file after the media relocation, for any table and disk, and
    what its dry run is worth (scripts/relocate_userdata_layout.py, relocate_vehicle_media). */
module MediaRows {
  import opened Common
  import opened LegacyPaths
  import opened MediaRelocation

  /** The real run after n rows. */
  function Real(job: Job, rows: seq<Row>, fs: Disk<Bytes>, n: nat): (st: State)
    requires n <= |rows|
    ensures |st.paths| == n
  {
    RunTo(job, rows, fs, n, true)
  }

  /** The file that row m moves, if it moves one. */
  function MovedBy(job: Job, rows: seq<Row>, fs: Disk<Bytes>, m: nat): Option<string>
    requires m < |rows|
  {
    NextMove(job, rows, Real(job, rows, fs, m))
  }

  predicate Mover(job: Job, rows: seq<Row>, fs: Disk<Bytes>, m: nat, c: string) {
    m < |rows| && MovedBy(job, rows, fs, m) == Some(c)
  }

  /** Where row m puts file c. */
  function Place(job: Job, rows: seq<Row>, m: nat, c: string): string
    requires m < |rows|
  {
    Dest(job, rows[m], c)
  }

  lemma RealNext(job: Job, rows: seq<Row>, fs: Disk<Bytes>, n: nat)
    requires CleanNames(job, rows) && n < |rows|
    ensures Inv(job, rows, fs, Real(job, rows, fs, n)) && Inv(job, rows, fs, Real(job, rows, fs, n + 1))
    ensures var st, st' := Real(job, rows, fs, n), Real(job, rows, fs, n + 1);
            && st'.paths[..n] == st.paths
            && st'.paths[n] == (if KeyOf(rows[n]) in st'.remap then st'.remap[KeyOf(rows[n])] else rows[n].path)
            && match MovedBy(job, rows, fs, n)
               case None => st'.fs == st.fs && st'.remap == st.remap
               case Some(src) =>
                 var dst := Dest(job, rows[n], src);
                 && Selected(job, rows[n]) && KeyOf(rows[n]) !in st.remap
                 && FindFile(st.fs, rows[n].path, rows[n].account) == Some(src)
                 && src in st.fs && src in fs && Contains(src, job.legacy + "/") && New(job, dst) && dst !in st.fs
                 && st'.fs == Moved(st.fs, src, dst)
                 && st'.remap == st.remap[KeyOf(rows[n]) := dst][Physical(rows[n].account, src) := dst]
  {
    RunKeepsInv(job, rows, fs, n);
    RunKeepsInv(job, rows, fs, n + 1);
    VisitShape(job, rows, fs, Real(job, rows, fs, n));
  }

  /** What is gone stays gone, what came stays as it came, and a path stays remapped. */
  ghost predicate Grows(job: Job, fs: Disk<Bytes>, st: State, st': State) {
    && (forall p | p in fs && p !in st.fs :: p !in st'.fs)
    && (forall p | New(job, p) && p in st.fs :: p in st'.fs && st'.fs[p] == st.fs[p])
    && (forall a, p | Stored(a, p) in st.remap ::
          Stored(a, p) in st'.remap && st'.remap[Stored(a, p)] == st.remap[Stored(a, p)])
    && |st.paths| <= |st'.paths| && st'.paths[..|st.paths|] == st.paths
  }

  lemma NextGrows(job: Job, rows: seq<Row>, fs: Disk<Bytes>, n: nat)
    requires CleanNames(job, rows) && n < |rows|
    ensures Grows(job, fs, Real(job, rows, fs, n), Real(job, rows, fs, n + 1))
  {
    RealNext(job, rows, fs, n);
  }

  lemma {:induction false} RealGrows(job: Job, rows: seq<Row>, fs: Disk<Bytes>, m: nat, n: nat)
    requires CleanNames(job, rows) && m <= n <= |rows|
    ensures Grows(job, fs, Real(job, rows, fs, m), Real(job, rows, fs, n))
    decreases n - m
  {
    if m < n {
      RealGrows(job, rows, fs, m, n - 1);
      NextGrows(job, rows, fs, n - 1);
      GrowsOn(job, fs, Real(job, rows, fs, m), Real(job, rows, fs, n - 1), Real(job, rows, fs, n));
    }
  }

  lemma GrowsOn(job: Job, fs: Disk<Bytes>, s: State, t: State, u: State)
    requires Grows(job, fs, s, t) && Grows(job, fs, t, u)
    ensures Grows(job, fs, s, u)
  {
    assert u.paths[..|t.paths|][..|s.paths|] == u.paths[..|s.paths|];
  }

  /** After its move a file is at its place with its bytes, and not where it was; its mover leads
      to it, and so does every row with the same stored path that is visited later. */
  lemma MovedFileIsAt(job: Job, rows: seq<Row>, fs: Disk<Bytes>, m: nat, c: string, n: nat)
    requires CleanNames(job, rows) && Mover(job, rows, fs, m, c) && m < n <= |rows|
    ensures var st := Real(job, rows, fs, n);
            var d := Place(job, rows, m, c);
            && c in fs && Contains(c, job.legacy + "/") && c !in st.fs
            && New(job, d) && d in st.fs && st.fs[d] == fs[c]
            && KeyOf(rows[m]) in st.remap && st.remap[KeyOf(rows[m])] == d
  {
    RealNext(job, rows, fs, m);
    RealGrows(job, rows, fs, m + 1, n);
  }

  lemma GoesByMover(job: Job, rows: seq<Row>, fs: Disk<Bytes>, c: string, n: nat)
    requires CleanNames(job, rows) && n < |rows| && c in fs
    requires c in Real(job, rows, fs, n).fs && c !in Real(job, rows, fs, n + 1).fs
    ensures Mover(job, rows, fs, n, c)
  {
    RealNext(job, rows, fs, n);
  }

  lemma {:induction false} GoneHasAMover(job: Job, rows: seq<Row>, fs: Disk<Bytes>, c: string, n: nat) returns (m: nat)
    requires CleanNames(job, rows) && n <= |rows| && c in fs && c !in Real(job, rows, fs, n).fs
    ensures m < n && Mover(job, rows, fs, m, c)
  {
    assert n > 0;
    if c in Real(job, rows, fs, n - 1).fs {
      GoesByMover(job, rows, fs, c, n - 1);
      m := n - 1;
    } else {
      m := GoneHasAMover(job, rows, fs, c, n - 1);
    }
  }

  lemma RemappedByMover(job: Job, rows: seq<Row>, fs: Disk<Bytes>, key: Key, n: nat) returns (c: string)
    requires CleanNames(job, rows) && n < |rows| && key.Stored?
    requires key !in Real(job, rows, fs, n).remap && key in Real(job, rows, fs, n + 1).remap
    ensures Mover(job, rows, fs, n, c) && KeyOf(rows[n]) == key
    ensures Real(job, rows, fs, n + 1).remap[key] == Place(job, rows, n, c)
  {
    RealNext(job, rows, fs, n);
    c := MovedBy(job, rows, fs, n).value;
  }

  lemma {:induction false} RemappedHasAMover(job: Job, rows: seq<Row>, fs: Disk<Bytes>, key: Key, n: nat)
    returns (m: nat, c: string)
    requires CleanNames(job, rows) && n <= |rows| && key.Stored? && key in Real(job, rows, fs, n).remap
    ensures m < n && Mover(job, rows, fs, m, c) && KeyOf(rows[m]) == key
    ensures Real(job, rows, fs, n).remap[key] == Place(job, rows, m, c)
  {
    assert n > 0;
    if key in Real(job, rows, fs, n - 1).remap {
      m, c := RemappedHasAMover(job, rows, fs, key, n - 1);
      NextGrows(job, rows, fs, n - 1);
    } else {
      c := RemappedByMover(job, rows, fs, key, n - 1);
      m := n - 1;
    }
  }

  /** Two rows that move put their files in different places. */
  lemma PlacesDiffer(job: Job, rows: seq<Row>, fs: Disk<Bytes>, m: nat, c: string, m': nat, c': string)
    requires CleanNames(job, rows) && Mover(job, rows, fs, m, c) && Mover(job, rows, fs, m', c') && m < m'
    ensures Place(job, rows, m, c) != Place(job, rows, m', c')
  {
    MovedFileIsAt(job, rows, fs, m, c, m');
    RealNext(job, rows, fs, m');
  }

  /** The path a row is left with. */
  lemma PathAfter(job: Job, rows: seq<Row>, fs: Disk<Bytes>, i: nat, n: nat)
    requires CleanNames(job, rows) && i < n <= |rows|
    ensures var st := Real(job, rows, fs, i + 1);
            Real(job, rows, fs, n).paths[i] ==
            if KeyOf(rows[i]) in st.remap then st.remap[KeyOf(rows[i])] else rows[i].path
  {
    RealNext(job, rows, fs, i);
    RealGrows(job, rows, fs, i + 1, n);
    assert Real(job, rows, fs, n).paths[..i + 1][i] == Real(job, rows, fs, n).paths[i];
  }

  /** A row as the run left it leads to p. */
  predicate Leads(rows: seq<Row>, st: State, i: nat, p: string)
    requires i < |rows| && i < |st.paths|
  {
    FindFile(st.fs, st.paths[i], rows[i].account) == Some(p)
  }

  lemma NewPathLeads(job: Job, fs: Disk<Bytes>, d: string, account: string)
    requires New(job, d) && d in fs
    ensures FindFile(fs, d, account) == Some(d)
  {
    assert d[0] == TENANT_ROOT[0];
    assert LStrip(d) == d;
  }

  /** A row whose file does not move keeps its path and leads to the file. */
  lemma StayingFileIsFound(job: Job, rows: seq<Row>, fs: Disk<Bytes>, i: nat, c: string)
    requires CleanNames(job, rows) && i < |rows| && Home(rows, fs, i) == Some(c)
    requires forall m: nat :: !Mover(job, rows, fs, m, c)
    ensures var st := Real(job, rows, fs, |rows|);
            c in st.fs && st.fs[c] == fs[c] && Leads(rows, st, i, c)
  {
    var st := Real(job, rows, fs, |rows|);
    RunKeepsInv(job, rows, fs, |rows|);
    if c !in st.fs {
      var m := GoneHasAMover(job, rows, fs, c, |rows|);
      assert false;
    }
    assert HomeOk(job, rows, fs, st, i) && PathOk(rows, st, i);
  }

  /** A row with another path than the file's new place does not lead there. */
  lemma OldPathMissesPlace(job: Job, rows: seq<Row>, fs: Disk<Bytes>, i: nat, c: string, d: string)
    requires CleanNames(job, rows) && i < |rows| && Home(rows, fs, i) == Some(c)
    requires Contains(c, job.legacy + "/") && New(job, d)
    ensures FindFile(Real(job, rows, fs, |rows|).fs, rows[i].path, rows[i].account) != Some(d)
  {
    var now := Real(job, rows, fs, |rows|).fs;
    if !Selected(job, rows[i]) {
      OutsideStaysOutside(job, rows, i);
      assert false;
    }
    if FindFile(now, rows[i].path, rows[i].account).Some? {
      LegacySource(job, now, rows[i]);
    }
  }

  /** For any table and disk, aliases included: the bytes of the file a row named are never lost.
      If nothing moves the file the row leads to it where it was; if row m moves it, the row
      leads to its new place exactly when row m has the same stored path and stands at or before
      the row. */
  lemma RowLeadsIff(job: Job, rows: seq<Row>, fs: Disk<Bytes>, i: nat, c: string)
    requires CleanNames(job, rows) && i < |rows| && Home(rows, fs, i) == Some(c)
    ensures var st := Real(job, rows, fs, |rows|);
            && ((forall m: nat :: !Mover(job, rows, fs, m, c)) ==>
                c in st.fs && st.fs[c] == fs[c] && Leads(rows, st, i, c))
            && (forall m: nat | Mover(job, rows, fs, m, c) ::
                  && c !in st.fs && Place(job, rows, m, c) in st.fs && st.fs[Place(job, rows, m, c)] == fs[c]
                  && (Leads(rows, st, i, Place(job, rows, m, c)) <==> KeyOf(rows[m]) == KeyOf(rows[i]) && m <= i))
  {
    if forall m: nat :: !Mover(job, rows, fs, m, c) {
      StayingFileIsFound(job, rows, fs, i, c);
    }
    forall m: nat | Mover(job, rows, fs, m, c)
      ensures var st := Real(job, rows, fs, |rows|);
              && c !in st.fs && Place(job, rows, m, c) in st.fs && st.fs[Place(job, rows, m, c)] == fs[c]
              && (Leads(rows, st, i, Place(job, rows, m, c)) <==> KeyOf(rows[m]) == KeyOf(rows[i]) && m <= i)
    {
      MovedFileIsAt(job, rows, fs, m, c, |rows|);
      RowOfMovedFile(job, rows, fs, i, c, m);
    }
  }

  lemma RowOfMovedFile(job: Job, rows: seq<Row>, fs: Disk<Bytes>, i: nat, c: string, m: nat)
    requires CleanNames(job, rows) && i < |rows| && Home(rows, fs, i) == Some(c) && Mover(job, rows, fs, m, c)
    ensures Leads(rows, Real(job, rows, fs, |rows|), i, Place(job, rows, m, c)) <==>
            KeyOf(rows[m]) == KeyOf(rows[i]) && m <= i
  {
    if KeyOf(rows[i]) in Real(job, rows, fs, i + 1).remap {
      RemappedRow(job, rows, fs, i, c, m);
    } else {
      PathAfter(job, rows, fs, i, |rows|);
      MovedFileIsAt(job, rows, fs, m, c, |rows|);
      OldPathMissesPlace(job, rows, fs, i, c, Place(job, rows, m, c));
      if KeyOf(rows[m]) == KeyOf(rows[i]) && m <= i {
        MovedFileIsAt(job, rows, fs, m, c, i + 1);
      }
    }
  }

  lemma RemappedRow(job: Job, rows: seq<Row>, fs: Disk<Bytes>, i: nat, c: string, m: nat)
    requires CleanNames(job, rows) && i < |rows| && Mover(job, rows, fs, m, c)
    requires KeyOf(rows[i]) in Real(job, rows, fs, i + 1).remap
    ensures Leads(rows, Real(job, rows, fs, |rows|), i, Place(job, rows, m, c)) <==>
            KeyOf(rows[m]) == KeyOf(rows[i]) && m <= i
  {
    var st := Real(job, rows, fs, |rows|);
    var m', c' := RemappedHasAMover(job, rows, fs, KeyOf(rows[i]), i + 1);
    PathAfter(job, rows, fs, i, |rows|);
    PlaceIsNew(job, rows, fs, m', c');
    NewPathLeads(job, st.fs, st.paths[i], rows[i].account);
    if m' != m {
      OneMovePerKey(job, rows, fs, m, c, m', c');
      if m < m' {
        PlacesDiffer(job, rows, fs, m, c, m', c');
      } else {
        PlacesDiffer(job, rows, fs, m', c', m, c);
      }
    }
  }

  lemma PlaceIsNew(job: Job, rows: seq<Row>, fs: Disk<Bytes>, m: nat, c: string)
    requires CleanNames(job, rows) && Mover(job, rows, fs, m, c)
    ensures New(job, Place(job, rows, m, c)) && Place(job, rows, m, c) in Real(job, rows, fs, |rows|).fs
  {
    MovedFileIsAt(job, rows, fs, m, c, |rows|);
  }

  /** A stored path is remapped by one move only. */
  lemma OneMovePerKey(job: Job, rows: seq<Row>, fs: Disk<Bytes>, m: nat, c: string, m': nat, c': string)
    requires CleanNames(job, rows) && Mover(job, rows, fs, m, c) && Mover(job, rows, fs, m', c') && m != m'
    ensures KeyOf(rows[m]) != KeyOf(rows[m'])
  {
    if m < m' {
      MovedFileIsAt(job, rows, fs, m, c, m');
      RealNext(job, rows, fs, m');
    } else {
      MovedFileIsAt(job, rows, fs, m', c', m);
      RealNext(job, rows, fs, m);
    }
  }

  lemma OneMoverPerFile(job: Job, rows: seq<Row>, fs: Disk<Bytes>, m: nat, m': nat, c: string)
    requires CleanNames(job, rows) && Mover(job, rows, fs, m, c) && Mover(job, rows, fs, m', c)
    ensures m == m'
  {
    if m < m' {
      MovedFileIsAt(job, rows, fs, m, c, m');
      RealNext(job, rows, fs, m');
    } else if m' < m {
      MovedFileIsAt(job, rows, fs, m', c, m);
      RealNext(job, rows, fs, m);
    }
  }

  // ---- In terms of the disk the run starts on ----

  /** Row h is to be moved and the disk has room for its file at its target. */
  predicate HasRoom(job: Job, rows: seq<Row>, fs: Disk<Bytes>, h: nat, c: string)
    requires h < |rows|
  {
    Selected(job, rows[h]) && Home(rows, fs, h) == Some(c) && Place(job, rows, h, c) !in fs
  }

  /** The first row that names file c and has room for it. */
  predicate First(job: Job, rows: seq<Row>, fs: Disk<Bytes>, m: nat, c: string) {
    m < |rows| && HasRoom(job, rows, fs, m, c) && forall h: nat | h < m :: !HasRoom(job, rows, fs, h, c)
  }

  /** Whatever a row moves is the file it named at the start. */
  ghost predicate OwnMoves(job: Job, rows: seq<Row>, fs: Disk<Bytes>) {
    forall m: nat, c | Mover(job, rows, fs, m, c) :: Home(rows, fs, m) == Some(c)
  }

  /** Different files go to different places (the script relies on their names for that). */
  ghost predicate DistinctDests(job: Job, rows: seq<Row>, fs: Disk<Bytes>) {
    forall i: nat, j: nat | i < |rows| && j < |rows| && Home(rows, fs, i) != Home(rows, fs, j) ::
      Home(rows, fs, i).Some? && Home(rows, fs, j).Some? ==>
        Place(job, rows, i, Home(rows, fs, i).value) != Place(job, rows, j, Home(rows, fs, j).value)
  }

  lemma MoverHasRoom(job: Job, rows: seq<Row>, fs: Disk<Bytes>, m: nat, c: string)
    requires CleanNames(job, rows) && OwnMoves(job, rows, fs) && Mover(job, rows, fs, m, c)
    ensures HasRoom(job, rows, fs, m, c)
  {
    RealNext(job, rows, fs, m);
  }

  lemma ArrivesByMover(job: Job, rows: seq<Row>, fs: Disk<Bytes>, p: string, n: nat) returns (c: string)
    requires CleanNames(job, rows) && n < |rows|
    requires p !in Real(job, rows, fs, n).fs && p in Real(job, rows, fs, n + 1).fs
    ensures Mover(job, rows, fs, n, c) && p == Place(job, rows, n, c)
  {
    RealNext(job, rows, fs, n);
    c := MovedBy(job, rows, fs, n).value;
  }

  lemma {:induction false} NewHasAMover(job: Job, rows: seq<Row>, fs: Disk<Bytes>, p: string, n: nat)
    returns (m: nat, c: string)
    requires CleanNames(job, rows) && n <= |rows| && p !in fs && p in Real(job, rows, fs, n).fs
    ensures m < n && Mover(job, rows, fs, m, c) && p == Place(job, rows, m, c)
  {
    assert n > 0;
    if p in Real(job, rows, fs, n - 1).fs {
      m, c := NewHasAMover(job, rows, fs, p, n - 1);
    } else {
      c := ArrivesByMover(job, rows, fs, p, n - 1);
      m := n - 1;
    }
  }

  /** Before anything moves file c, a row that names it finds it, and its target is free exactly
      when it was free at the start. */
  lemma BeforeTheMove(job: Job, rows: seq<Row>, fs: Disk<Bytes>, m: nat, c: string)
    requires CleanNames(job, rows) && OwnMoves(job, rows, fs) && DistinctDests(job, rows, fs)
    requires m < |rows| && Home(rows, fs, m) == Some(c) && forall h: nat | h < m :: !Mover(job, rows, fs, h, c)
    ensures var st := Real(job, rows, fs, m);
            && c in st.fs && FindFile(st.fs, rows[m].path, rows[m].account) == Some(c) && KeyOf(rows[m]) !in st.remap
            && (Place(job, rows, m, c) in st.fs <==> Place(job, rows, m, c) in fs)
  {
    var st, d := Real(job, rows, fs, m), Place(job, rows, m, c);
    RunKeepsInv(job, rows, fs, m);
    if c !in st.fs {
      var h := GoneHasAMover(job, rows, fs, c, m);
      assert false;
    }
    assert HomeOk(job, rows, fs, st, m);
    DestIsNotLegacy(job, rows, m, c);
    if d in st.fs && d !in fs {
      var h, c' := NewHasAMover(job, rows, fs, d, m);
      assert false;
    }
  }

  lemma FirstMoves(job: Job, rows: seq<Row>, fs: Disk<Bytes>, m: nat, c: string)
    requires CleanNames(job, rows) && OwnMoves(job, rows, fs) && DistinctDests(job, rows, fs)
    requires First(job, rows, fs, m, c)
    ensures Mover(job, rows, fs, m, c)
  {
    forall h: nat | h < m ensures !Mover(job, rows, fs, h, c) {
      if Mover(job, rows, fs, h, c) {
        MoverHasRoom(job, rows, fs, h, c);
        assert false;
      }
    }
    BeforeTheMove(job, rows, fs, m, c);
    RunKeepsInv(job, rows, fs, m);
  }

  lemma FirstExists(job: Job, rows: seq<Row>, fs: Disk<Bytes>, h: nat, c: string) returns (m: nat)
    requires h < |rows| && HasRoom(job, rows, fs, h, c)
    ensures m <= h && First(job, rows, fs, m, c)
  {
    if forall g: nat | g < h :: !HasRoom(job, rows, fs, g, c) {
      m := h;
    } else {
      var g: nat :| g < h && HasRoom(job, rows, fs, g, c);
      m := FirstExists(job, rows, fs, g, c);
    }
  }

  /** The row that moves a file is the first that names it and has room for it. */
  lemma MoverIsFirst(job: Job, rows: seq<Row>, fs: Disk<Bytes>, m: nat, c: string)
    requires CleanNames(job, rows) && OwnMoves(job, rows, fs) && DistinctDests(job, rows, fs)
    ensures Mover(job, rows, fs, m, c) <==> First(job, rows, fs, m, c)
  {
    if Mover(job, rows, fs, m, c) {
      MoverHasRoom(job, rows, fs, m, c);
      var f := FirstExists(job, rows, fs, m, c);
      FirstMoves(job, rows, fs, f, c);
      OneMoverPerFile(job, rows, fs, f, m, c);
    } else if First(job, rows, fs, m, c) {
      FirstMoves(job, rows, fs, m, c);
    }
  }

  /** What each row leads to, told from the disk at the start. */
  ghost predicate LeadsByStart(job: Job, rows: seq<Row>, fs: Disk<Bytes>, i: nat, c: string)
    requires i < |rows|
  {
    var st := Real(job, rows, fs, |rows|);
    && ((forall m: nat :: !First(job, rows, fs, m, c)) ==> Leads(rows, st, i, c))
    && (forall m: nat | First(job, rows, fs, m, c) ::
          Leads(rows, st, i, Place(job, rows, m, c)) <==> KeyOf(rows[m]) == KeyOf(rows[i]) && m <= i)
  }

  lemma OwnMovesLead(job: Job, rows: seq<Row>, fs: Disk<Bytes>, i: nat, c: string)
    requires CleanNames(job, rows) && OwnMoves(job, rows, fs) && DistinctDests(job, rows, fs)
    requires i < |rows| && Home(rows, fs, i) == Some(c)
    ensures LeadsByStart(job, rows, fs, i, c)
  {
    RowLeadsIff(job, rows, fs, i, c);
    forall m: nat ensures Mover(job, rows, fs, m, c) <==> First(job, rows, fs, m, c) {
      MoverIsFirst(job, rows, fs, m, c);
    }
  }

  /** Whatever two files two rows may be looking for, they have different targets. */
  ghost predicate DistinctTargets(job: Job, rows: seq<Row>, fs: Disk<Bytes>) {
    forall i: nat, j: nat, a, b | i < |rows| && j < |rows| && a != b
                                  && MayMean(rows, fs, i, a) && MayMean(rows, fs, j, b) ::
      Place(job, rows, i, a) != Place(job, rows, j, b)
  }

  /** a is a file, and one of the places where row i looks. */
  predicate MayMean(rows: seq<Row>, fs: Disk<Bytes>, i: nat, a: string)
    requires i < |rows|
  {
    a in fs && a in LegacyCandidates(rows[i].path, rows[i].account)
  }

  lemma {:induction false} BasenameBehindSlash(x: string, rest: string)
    ensures Basename(x + "/" + rest) == Basename(rest)
  {
    var s := x + "/" + rest;
    if rest != "" && rest[|rest| - 1] != '/' {
      assert s[..|s| - 1] == x + "/" + rest[..|rest| - 1];
      BasenameBehindSlash(x, rest[..|rest| - 1]);
    }
  }

  lemma CandidatesShareTheirName(stored: string, account: string)
    ensures forall a, b | a in LegacyCandidates(stored, account) && b in LegacyCandidates(stored, account) ::
              Basename(a) == Basename(b)
  {
    var rel := LStrip(stored);
    if PreTenant(rel) {
      var rest := rel[5..];
      assert rel == "data" + "/" + rest;
      BasenameBehindSlash("data", rest);
      assert AccountDir(account) + rest == TENANT_ROOT + "account-" + account + "/" + rest;
      BasenameBehindSlash(TENANT_ROOT + "account-" + account, rest);
    }
  }

  /** Then no row can mean two files, since the two would have one name. */
  lemma OnlyOneMeant(job: Job, rows: seq<Row>, fs: Disk<Bytes>, i: nat, a: string)
    requires DistinctTargets(job, rows, fs) && i < |rows| && MayMean(rows, fs, i, a)
    ensures Home(rows, fs, i) == Some(a)
  {
    CandidatesShareTheirName(rows[i].path, rows[i].account);
    var home := Home(rows, fs, i);
    assert home.Some? && MayMean(rows, fs, i, home.value);
    assert Place(job, rows, i, home.value) == Place(job, rows, i, a);
  }

  lemma MoverMeans(job: Job, rows: seq<Row>, fs: Disk<Bytes>, m: nat, c: string)
    requires CleanNames(job, rows) && Mover(job, rows, fs, m, c)
    ensures MayMean(rows, fs, m, c)
  {
    RealNext(job, rows, fs, m);
  }

  lemma TargetsApart(job: Job, rows: seq<Row>, fs: Disk<Bytes>)
    requires CleanNames(job, rows) && DistinctTargets(job, rows, fs)
    ensures OwnMoves(job, rows, fs) && DistinctDests(job, rows, fs)
  {
    forall m: nat, c | Mover(job, rows, fs, m, c) ensures Home(rows, fs, m) == Some(c) {
      MoverMeans(job, rows, fs, m, c);
      OnlyOneMeant(job, rows, fs, m, c);
    }
    forall i: nat | i < |rows| && Home(rows, fs, i).Some? ensures MayMean(rows, fs, i, Home(rows, fs, i).value) {
    }
  }

  /** Aliases included: when different files have different targets, a row still leads to its file
      exactly when the first row to have room for the file, if there is one, has the same stored
      path and stands at or before it. */
  lemma RowLeadsByStartIff(job: Job, rows: seq<Row>, fs: Disk<Bytes>, i: nat, c: string)
    requires CleanNames(job, rows) && DistinctTargets(job, rows, fs)
    requires i < |rows| && Home(rows, fs, i) == Some(c)
    ensures LeadsByStart(job, rows, fs, i, c)
  {
    TargetsApart(job, rows, fs);
    OwnMovesLead(job, rows, fs, i, c);
  }

  /** A second stored form of a file that the run moves for another row is left behind. */
  lemma SecondFormIsLost(job: Job, rows: seq<Row>, fs: Disk<Bytes>, i: nat, m: nat, c: string)
    requires CleanNames(job, rows) && DistinctTargets(job, rows, fs)
    requires i < |rows| && Home(rows, fs, i) == Some(c) && First(job, rows, fs, m, c)
    requires KeyOf(rows[m]) != KeyOf(rows[i])
    ensures !Leads(rows, Real(job, rows, fs, |rows|), i, Place(job, rows, m, c))
    ensures c !in Real(job, rows, fs, |rows|).fs
  {
    RowLeadsByStartIff(job, rows, fs, i, c);
    TargetsApart(job, rows, fs);
    FirstMoves(job, rows, fs, m, c);
    MovedFileIsAt(job, rows, fs, m, c, |rows|);
  }

  // ---- Without aliases ----

  /** Rows with different stored paths name different files. */
  ghost predicate NoAlias(rows: seq<Row>, fs: Disk<Bytes>) {
    forall i: nat, j: nat | i < |rows| && j < |rows| && KeyOf(rows[i]) != KeyOf(rows[j]) ::
      Home(rows, fs, i).Some? ==> Home(rows, fs, i) != Home(rows, fs, j)
  }

  lemma {:induction false} NoAliasMovesOwn(job: Job, rows: seq<Row>, fs: Disk<Bytes>, m: nat, c: string)
    requires CleanNames(job, rows) && NoAlias(rows, fs) && Mover(job, rows, fs, m, c)
    ensures Home(rows, fs, m) == Some(c)
    decreases m
  {
    RealNext(job, rows, fs, m);
    var st := Real(job, rows, fs, m);
    assert HomeOk(job, rows, fs, st, m);
    var a := Home(rows, fs, m).value;
    if a !in st.fs {
      var h := GoneHasAMover(job, rows, fs, a, m);
      NoAliasMovesOwn(job, rows, fs, h, a);
      MovedFileIsAt(job, rows, fs, h, a, m);
    }
  }

  lemma NoAliasOwns(job: Job, rows: seq<Row>, fs: Disk<Bytes>)
    requires CleanNames(job, rows) && NoAlias(rows, fs)
    ensures OwnMoves(job, rows, fs)
  {
    forall m: nat, c | Mover(job, rows, fs, m, c) ensures Home(rows, fs, m) == Some(c) {
      NoAliasMovesOwn(job, rows, fs, m, c);
    }
  }

  /** Without aliases a row still leads to its file exactly when no later row with the same stored
      path was the first to have room for it. The script promises it always does. */
  lemma RowFollowsIff(job: Job, rows: seq<Row>, fs: Disk<Bytes>, i: nat, c: string)
    requires CleanNames(job, rows) && NoAlias(rows, fs) && DistinctDests(job, rows, fs)
    requires i < |rows| && Home(rows, fs, i) == Some(c)
    ensures var st := Real(job, rows, fs, |rows|);
            && ((forall m: nat :: !First(job, rows, fs, m, c)) ==> Leads(rows, st, i, c))
            && (forall m: nat | First(job, rows, fs, m, c) :: Leads(rows, st, i, Place(job, rows, m, c)) <==> m <= i)
  {
    NoAliasOwns(job, rows, fs);
    OwnMovesLead(job, rows, fs, i, c);
    forall m: nat | First(job, rows, fs, m, c) ensures KeyOf(rows[m]) == KeyOf(rows[i]) {
    }
  }

  /** If all rows that may mean a file have one stored path and one company folder, each of them
      still resolves to its bytes, whatever the rest of the table and even where targets clash. */
  lemma OneFolderKeepsTheRow(job: Job, rows: seq<Row>, fs: Disk<Bytes>, i: nat, c: string)
    requires CleanNames(job, rows) && i < |rows| && Home(rows, fs, i) == Some(c)
    requires forall j: nat | j < |rows| && MayMean(rows, fs, j, c) ::
               KeyOf(rows[j]) == KeyOf(rows[i])
               && job.folder(rows[j].account, rows[j].vehicle) == job.folder(rows[i].account, rows[i].vehicle)
    ensures var st := Real(job, rows, fs, |rows|);
            var found := FindFile(st.fs, st.paths[i], rows[i].account);
            found.Some? && found.value in st.fs && st.fs[found.value] == fs[c]
  {
    RowLeadsIff(job, rows, fs, i, c);
    if m: nat :| Mover(job, rows, fs, m, c) {
      RealNext(job, rows, fs, m);
      assert MayMean(rows, fs, m, c);
      EarlierMoves(job, rows, fs, i, m, c);
    }
  }

  lemma EarlierMoves(job: Job, rows: seq<Row>, fs: Disk<Bytes>, i: nat, m: nat, c: string)
    requires CleanNames(job, rows) && Mover(job, rows, fs, m, c) && i < |rows| && Home(rows, fs, i) == Some(c)
    requires KeyOf(rows[m]) == KeyOf(rows[i]) && Place(job, rows, m, c) == Place(job, rows, i, c)
    ensures m <= i
  {
    var st := Real(job, rows, fs, i);
    RealNext(job, rows, fs, m);
    RealNext(job, rows, fs, i);
    assert HomeOk(job, rows, fs, st, i);
    DestIsNotLegacy(job, rows, i, c);
    if Mover(job, rows, fs, i, c) {
      OneMoverPerFile(job, rows, fs, i, m, c);
    }
    if i <= m {
      RealGrows(job, rows, fs, i, m);
    }
  }

  // ---- The dry run ----

  function Dry(job: Job, rows: seq<Row>, fs: Disk<Bytes>, n: nat): (st: State)
    requires n <= |rows|
    ensures |st.paths| == n
  {
    RunTo(job, rows, fs, n, false)
  }

  /** A dry run changes no row and no file. */
  lemma {:induction false} DryRunChangesNothing(job: Job, rows: seq<Row>, fs: Disk<Bytes>, n: nat)
    requires n <= |rows|
    ensures Dry(job, rows, fs, n).fs == fs
    ensures forall i: nat | i < n :: Dry(job, rows, fs, n).paths[i] == rows[i].path
  {
    if n > 0 {
      DryRunChangesNothing(job, rows, fs, n - 1);
    }
  }

  /** Up to row n the dry run has kept the books of the real run: the remap and both counters. */
  ghost predicate SameBooks(job: Job, rows: seq<Row>, fs: Disk<Bytes>, n: nat)
    requires n <= |rows|
  {
    var dry, st := Dry(job, rows, fs, n), Real(job, rows, fs, n);
    dry.remap == st.remap && dry.moved == st.moved && dry.updated == st.updated
  }

  /** The real run finds what the dry run cannot see: the row's file has been moved under another
      stored path, and the dry run would repoint the row; or an earlier row's file now stands
      where the row's is to go. */
  predicate Surprised(job: Job, rows: seq<Row>, fs: Disk<Bytes>, n: nat)
    requires n < |rows|
  {
    var r, st := rows[n], Real(job, rows, fs, n);
    Selected(job, r) && KeyOf(r) !in st.remap &&
    match Home(rows, fs, n)
    case None => false
    case Some(c) =>
      if c !in st.fs then Physical(r.account, c) in st.remap || Dest(job, r, c) !in fs
      else Dest(job, r, c) in st.fs && Dest(job, r, c) !in fs
  }

  /** What the dry run does with a row, when its books are those of the real run. */
  lemma DryNext(job: Job, rows: seq<Row>, fs: Disk<Bytes>, n: nat)
    requires n < |rows|
    ensures var dry, r := Dry(job, rows, fs, n), rows[n];
            var next := Dry(job, rows, fs, n + 1);
            if !Selected(job, r) then
              next.remap == dry.remap && next.moved == dry.moved && next.updated == dry.updated
            else
              var o := Decide(job, fs, dry.remap, r, false);
              next.remap == o.remap && next.moved == dry.moved + o.moved
              && next.updated == (if o.dst.Some? then dry.updated + 1 else dry.updated)
  {
    DryRunChangesNothing(job, rows, fs, n);
  }

  lemma RealDecides(job: Job, rows: seq<Row>, fs: Disk<Bytes>, n: nat)
    requires n < |rows|
    ensures var st, r := Real(job, rows, fs, n), rows[n];
            var next := Real(job, rows, fs, n + 1);
            if !Selected(job, r) then
              next.remap == st.remap && next.moved == st.moved && next.updated == st.updated
            else
              var o := Decide(job, st.fs, st.remap, r, true);
              next.remap == o.remap && next.moved == st.moved + o.moved
              && next.updated == (if o.dst.Some? then st.updated + 1 else st.updated)
  {
  }

  /** The two decisions about one row differ in the books exactly when the row is a surprise. */
  lemma DecisionsAgreeIff(job: Job, rows: seq<Row>, fs: Disk<Bytes>, n: nat)
    requires CleanNames(job, rows) && n < |rows| && Selected(job, rows[n])
    ensures var st, r := Real(job, rows, fs, n), rows[n];
            var d, o := Decide(job, fs, st.remap, r, false), Decide(job, st.fs, st.remap, r, true);
            (d.remap == o.remap && d.moved == o.moved && (d.dst.Some? <==> o.dst.Some?)) <==>
                !Surprised(job, rows, fs, n)
  {
    var st, r := Real(job, rows, fs, n), rows[n];
    RunKeepsInv(job, rows, fs, n);
    assert HomeOk(job, rows, fs, st, n);
    var home := Home(rows, fs, n);
    if KeyOf(r) !in st.remap && home.Some? {
      DestIsNotLegacy(job, rows, n, home.value);
      if home.value in st.fs {
        assert Physical(r.account, home.value) !in st.remap;
      } else {
        GoneHomeDecision(job, rows, fs, n, home.value);
      }
    }
  }

  lemma GoneHomeDecision(job: Job, rows: seq<Row>, fs: Disk<Bytes>, n: nat, c: string)
    requires CleanNames(job, rows) && n < |rows| && Selected(job, rows[n]) && Home(rows, fs, n) == Some(c)
    requires KeyOf(rows[n]) !in Real(job, rows, fs, n).remap && c !in Real(job, rows, fs, n).fs
    ensures var st, r := Real(job, rows, fs, n), rows[n];
            var d, o := Decide(job, fs, st.remap, r, false), Decide(job, st.fs, st.remap, r, true);
            if Physical(r.account, c) in st.remap || Dest(job, r, c) !in fs then d.remap != o.remap
            else d.remap == o.remap && d.moved == o.moved && d.dst.None? && o.dst.None?
  {
    var st, r := Real(job, rows, fs, n), rows[n];
    RunKeepsInv(job, rows, fs, n);
    CandidatesShareTheirName(r.path, r.account);
    DestIsNotLegacy(job, rows, n, c);
    var found := FindFile(st.fs, r.path, r.account);
    var d, o := Decide(job, fs, st.remap, r, false), Decide(job, st.fs, st.remap, r, true);
    if found.Some? {
      LegacySource(job, st.fs, r);
      assert Dest(job, r, found.value) == Dest(job, r, c);
      assert Physical(r.account, found.value) !in st.remap;
      assert Physical(r.account, found.value) != Physical(r.account, c);
      assert Physical(r.account, found.value) !in d.remap;
    }
    if Physical(r.account, c) in st.remap || Dest(job, r, c) !in fs {
      assert KeyOf(r) in d.remap;
    }
  }

  lemma BooksNextIff(job: Job, rows: seq<Row>, fs: Disk<Bytes>, n: nat)
    requires CleanNames(job, rows) && n < |rows| && SameBooks(job, rows, fs, n)
    ensures SameBooks(job, rows, fs, n + 1) <==> !Surprised(job, rows, fs, n)
  {
    DryNext(job, rows, fs, n);
    RealDecides(job, rows, fs, n);
    if Selected(job, rows[n]) {
      DecisionsAgreeIff(job, rows, fs, n);
      MovesAreRepoints(job, rows, fs, n);
    }
  }

  /** A decision counts a move only for a row it repoints, and remaps the row's path exactly when
      it repoints it. */
  lemma MovesAreRepoints(job: Job, rows: seq<Row>, fs: Disk<Bytes>, n: nat)
    requires n < |rows|
    ensures forall disk: Disk<Bytes>, remap, apply ::
              var o := Decide(job, disk, remap, rows[n], apply);
              o.dst.Some? <==> KeyOf(rows[n]) in o.remap
  {
  }

  /** Over a whole run, aliases and clashes included: the dry run keeps the books of the real run
      after every row exactly when no row is a surprise to it. */
  lemma BooksAgreeIff(job: Job, rows: seq<Row>, fs: Disk<Bytes>)
    requires CleanNames(job, rows)
    ensures (forall n: nat | n <= |rows| :: SameBooks(job, rows, fs, n)) <==>
            (forall n: nat | n < |rows| :: !Surprised(job, rows, fs, n))
  {
    if forall n: nat | n < |rows| :: !Surprised(job, rows, fs, n) {
      forall n: nat | n <= |rows| ensures SameBooks(job, rows, fs, n) {
        BooksWithoutSurprise(job, rows, fs, n);
      }
    }
    if forall n: nat | n <= |rows| :: SameBooks(job, rows, fs, n) {
      forall n: nat | n < |rows| ensures !Surprised(job, rows, fs, n) {
        var next := n + 1;
        assert SameBooks(job, rows, fs, n) && SameBooks(job, rows, fs, next);
        BooksNextIff(job, rows, fs, n);
      }
    }
  }

  lemma {:induction false} BooksWithoutSurprise(job: Job, rows: seq<Row>, fs: Disk<Bytes>, n: nat)
    requires CleanNames(job, rows) && n <= |rows|
    requires forall m: nat | m < |rows| :: !Surprised(job, rows, fs, m)
    ensures SameBooks(job, rows, fs, n)
  {
    if n > 0 {
      BooksWithoutSurprise(job, rows, fs, n - 1);
      BooksNextIff(job, rows, fs, n - 1);
    }
  }

  // ---- What surprises a dry run, told from the disk at the start ----

  /** Row n names a file that an earlier row, with another stored path, is the first to have room
      for; and the dry run would repoint row n as well, since it takes the file for handled or
      has room for it. */
  predicate Overtaken(job: Job, rows: seq<Row>, fs: Disk<Bytes>, m: nat, n: nat, c: string)
    requires m < n < |rows|
  {
    && Selected(job, rows[n]) && Home(rows, fs, n) == Some(c)
    && First(job, rows, fs, m, c) && KeyOf(rows[m]) != KeyOf(rows[n])
    && (rows[m].account == rows[n].account || Place(job, rows, n, c) !in fs)
  }

  predicate IsOvertaken(job: Job, rows: seq<Row>, fs: Disk<Bytes>, n: nat)
    requires n < |rows|
  {
    Home(rows, fs, n).Some? && exists m: nat | m < n :: Overtaken(job, rows, fs, m, n, Home(rows, fs, n).value)
  }

  /** A file counts as handled for an account from the move by a row of that account on. */
  lemma {:induction false} HandledByMover(job: Job, rows: seq<Row>, fs: Disk<Bytes>, m: nat, c: string, n: nat)
    requires CleanNames(job, rows) && Mover(job, rows, fs, m, c) && m < n <= |rows|
    ensures Physical(rows[m].account, c) in Real(job, rows, fs, n).remap
    decreases n
  {
    RealNext(job, rows, fs, n - 1);
    if m < n - 1 {
      HandledByMover(job, rows, fs, m, c, n - 1);
    }
  }

  lemma {:induction false} HandledHasAMover(job: Job, rows: seq<Row>, fs: Disk<Bytes>, account: string, c: string,
                                            n: nat) returns (m: nat)
    requires CleanNames(job, rows) && n <= |rows| && Physical(account, c) in Real(job, rows, fs, n).remap
    ensures m < n && Mover(job, rows, fs, m, c) && rows[m].account == account
  {
    assert n > 0;
    RealNext(job, rows, fs, n - 1);
    if Physical(account, c) in Real(job, rows, fs, n - 1).remap {
      m := HandledHasAMover(job, rows, fs, account, c, n - 1);
    } else {
      m := n - 1;
    }
  }

  /** A stored path is remapped only by the row that moves the file it names. */
  lemma RemappedByOwnMover(job: Job, rows: seq<Row>, fs: Disk<Bytes>, n: nat, c: string, m: nat)
    requires CleanNames(job, rows) && DistinctTargets(job, rows, fs) && m < n < |rows|
    requires Home(rows, fs, n) == Some(c) && Mover(job, rows, fs, m, c)
    ensures KeyOf(rows[n]) in Real(job, rows, fs, n).remap <==> KeyOf(rows[m]) == KeyOf(rows[n])
  {
    if KeyOf(rows[n]) in Real(job, rows, fs, n).remap {
      var m', c' := RemappedHasAMover(job, rows, fs, KeyOf(rows[n]), n);
      MoverMeans(job, rows, fs, m', c');
      OnlyOneMeant(job, rows, fs, n, c');
      OneMoverPerFile(job, rows, fs, m, m', c);
    }
    MovedFileIsAt(job, rows, fs, m, c, n);
  }

  lemma SurprisedAfterMove(job: Job, rows: seq<Row>, fs: Disk<Bytes>, n: nat, c: string, m: nat)
    requires CleanNames(job, rows) && DistinctTargets(job, rows, fs) && m < n < |rows|
    requires Home(rows, fs, n) == Some(c) && Mover(job, rows, fs, m, c)
    ensures Surprised(job, rows, fs, n) <==>
            Selected(job, rows[n]) && KeyOf(rows[m]) != KeyOf(rows[n])
            && (rows[m].account == rows[n].account || Place(job, rows, n, c) !in fs)
  {
    MovedFileIsAt(job, rows, fs, m, c, n);
    RemappedByOwnMover(job, rows, fs, n, c, m);
    if rows[m].account == rows[n].account {
      HandledByMover(job, rows, fs, m, c, n);
    } else if Physical(rows[n].account, c) in Real(job, rows, fs, n).remap {
      var m' := HandledHasAMover(job, rows, fs, rows[n].account, c, n);
      OneMoverPerFile(job, rows, fs, m, m', c);
    }
  }

  /** When different files have different targets, a row surprises the dry run exactly when it is
      overtaken. */
  lemma SurprisedByStartIff(job: Job, rows: seq<Row>, fs: Disk<Bytes>, n: nat)
    requires CleanNames(job, rows) && DistinctTargets(job, rows, fs) && n < |rows|
    ensures Surprised(job, rows, fs, n) <==> IsOvertaken(job, rows, fs, n)
  {
    TargetsApart(job, rows, fs);
    if Home(rows, fs, n).Some? {
      var c := Home(rows, fs, n).value;
      forall m: nat ensures Mover(job, rows, fs, m, c) <==> First(job, rows, fs, m, c) {
        MoverIsFirst(job, rows, fs, m, c);
      }
      if m: nat :| m < n && Mover(job, rows, fs, m, c) {
        SurprisedAfterMove(job, rows, fs, n, c, m);
        forall h: nat | h < n && First(job, rows, fs, h, c) ensures h == m {
          OneMoverPerFile(job, rows, fs, h, m, c);
        }
        assert IsOvertaken(job, rows, fs, n) <==> Overtaken(job, rows, fs, m, n, c);
      } else {
        BeforeTheMove(job, rows, fs, n, c);
      }
    }
  }

  /** So whether a dry run can be trusted is told by the table and the disk before the run: it
      keeps the books of the real run after every row exactly when no row is overtaken. */
  lemma DryRunPredictsIff(job: Job, rows: seq<Row>, fs: Disk<Bytes>)
    requires CleanNames(job, rows) && DistinctTargets(job, rows, fs)
    ensures (forall n: nat | n <= |rows| :: SameBooks(job, rows, fs, n)) <==>
            (forall n: nat | n < |rows| :: !IsOvertaken(job, rows, fs, n))
  {
    BooksAgreeIff(job, rows, fs);
    forall n: nat | n < |rows| ensures Surprised(job, rows, fs, n) <==> IsOvertaken(job, rows, fs, n) {
      SurprisedByStartIff(job, rows, fs, n);
    }
  }

  /** Without aliases, and with distinct targets, nothing is a surprise. */
  lemma DryRunPredicts(job: Job, rows: seq<Row>, fs: Disk<Bytes>, n: nat)
    requires CleanNames(job, rows) && NoAlias(rows, fs) && DistinctDests(job, rows, fs) && n <= |rows|
    ensures SameBooks(job, rows, fs, n)
  {
    NoAliasOwns(job, rows, fs);
    forall m: nat | m < |rows| ensures !Surprised(job, rows, fs, m) {
      NoSurprise(job, rows, fs, m);
    }
    BooksWithoutSurprise(job, rows, fs, n);
  }

  lemma NoSurprise(job: Job, rows: seq<Row>, fs: Disk<Bytes>, m: nat)
    requires CleanNames(job, rows) && NoAlias(rows, fs) && DistinctDests(job, rows, fs) && OwnMoves(job, rows, fs)
    requires m < |rows|
    ensures !Surprised(job, rows, fs, m)
  {
    var home := Home(rows, fs, m);
    if home.Some? && KeyOf(rows[m]) !in Real(job, rows, fs, m).remap {
      forall h: nat | h < m ensures !Mover(job, rows, fs, h, home.value) {
        if Mover(job, rows, fs, h, home.value) {
          MovedFileIsAt(job, rows, fs, h, home.value, m);
          assert false;
        }
      }
      BeforeTheMove(job, rows, fs, m, home.value);
    }
  }

  // ---- A concrete stranded row ----

  const CAMERA_FILE := "data/userdata/account-1/camera_images/x"

  function CameraJob(): Job {
    Job("camera_images", "camera-images", (account: string, vehicle: string) => vehicle)
  }

  lemma CameraNames(rows: seq<Row>)
    requires forall i | 0 <= i < |rows| :: rows[i].account == "1" && (rows[i].vehicle == "A" || rows[i].vehicle == "B")
    ensures CleanNames(CameraJob(), rows)
  {
  }

  lemma CameraFileIsLegacy()
    ensures Contains(CAMERA_FILE, "camera_images" + "/") && LStrip(CAMERA_FILE) == CAMERA_FILE
    ensures Basename(CAMERA_FILE) == "x"
  {
    assert OccursAt(CAMERA_FILE, "camera_images" + "/", 24);
    BasenameBehindSlash("data/userdata/account-1/camera_images", "x");
    assert "data/userdata/account-1/camera_images" + "/" + "x" == CAMERA_FILE;
  }

  /** One stored path, two companies, only the first target taken: the file moves for the
      second row, and the first row no longer leads to it. */
  lemma FirstRowIsStranded(job: Job, r0: Row, r1: Row, fs: Disk<Bytes>, c: string)
    requires CleanNames(job, [r0, r1]) && Selected(job, r0) && KeyOf(r0) == KeyOf(r1)
    requires FindFile(fs, r0.path, r0.account) == Some(c)
    requires Dest(job, r0, c) in fs && Dest(job, r1, c) !in fs
    ensures var rows := [r0, r1];
            && NoAlias(rows, fs) && DistinctDests(job, rows, fs) && First(job, rows, fs, 1, c)
            && !Leads(rows, Real(job, rows, fs, 2), 0, Place(job, rows, 1, c))
  {
    var rows := [r0, r1];
    assert forall i: nat | i < |rows| :: KeyOf(rows[i]) == KeyOf(r0);
    assert HasRoom(job, rows, fs, 1, c) && !HasRoom(job, rows, fs, 0, c);
    RowFollowsIff(job, rows, fs, 0, c);
  }

  function CameraPlace(folder: string): string {
    AccountDir("1") + folder + "/" + "camera-images" + "/" + "x"
  }

  lemma CameraPlaces()
    ensures CameraPlace("A") != CameraPlace("B") && CameraPlace("A") != CAMERA_FILE && CameraPlace("B") != CAMERA_FILE
  {
    assert |AccountDir("1")| == 24;
    assert CameraPlace("A")[24] == 'A' && CameraPlace("B")[24] == 'B' && CAMERA_FILE[24] == 'c';
  }

  lemma ARowIsStranded()
    ensures var rows := [Row(1, "1", "A", CAMERA_FILE), Row(2, "1", "B", CAMERA_FILE)];
            var fs: Disk<Bytes> := map[CAMERA_FILE := [7], CameraPlace("A") := [8]];
            !Leads(rows, Real(CameraJob(), rows, fs, 2), 0, CameraPlace("B"))
  {
    var job := CameraJob();
    var r0, r1 := Row(1, "1", "A", CAMERA_FILE), Row(2, "1", "B", CAMERA_FILE);
    CameraNames([r0, r1]);
    CameraFileIsLegacy();
    CameraPlaces();
    var fs: Disk<Bytes> := map[CAMERA_FILE := [7], CameraPlace("A") := [8]];
    assert Dest(job, r0, CAMERA_FILE) == CameraPlace("A") && Dest(job, r1, CAMERA_FILE) == CameraPlace("B");
    assert FindFile(fs, CAMERA_FILE, "1") == Some(CAMERA_FILE);
    FirstRowIsStranded(job, r0, r1, fs, CAMERA_FILE);
  }

  // ---- A concrete dry run that promises too much ----

  const OLD_FORM := "data/camera_images/x"

  lemma CandidatesOfOldForm()
    ensures LegacyCandidates(OLD_FORM, "1") == [OLD_FORM, CAMERA_FILE]
  {
    assert OLD_FORM[0] == 'd' && LStrip(OLD_FORM) == OLD_FORM;
    assert OLD_FORM == "data/" + "camera_images/x";
    assert OLD_FORM[5..] == "camera_images/x";
    assert OLD_FORM[5] == 'c' && TENANT_ROOT[5] == 'u';
    CameraFileOfRest();
  }

  lemma CameraFileOfRest()
    ensures AccountDir("1") + "camera_images/x" == CAMERA_FILE
  {
    assert AccountDir("1") == "data/userdata/account-1/";
  }

  lemma OldFormIsLegacy()
    ensures Contains(OLD_FORM, "camera_images" + "/") && |OLD_FORM| < |CAMERA_FILE|
    ensures LegacyCandidates(CAMERA_FILE, "1") == [CAMERA_FILE]
  {
    assert OccursAt(OLD_FORM, "camera_images" + "/", 5);
    assert CAMERA_FILE[0] == 'd' && LStrip(CAMERA_FILE) == CAMERA_FILE;
    assert TENANT_ROOT <= CAMERA_FILE;
  }

  const OLD_ROW := Row(1, "1", "A", OLD_FORM)

  const NEW_ROW := Row(2, "1", "A", CAMERA_FILE)

  lemma TheTwoRowsAreDecided(fs: Disk<Bytes>)
    requires fs == map[CAMERA_FILE := [7]]
    ensures var place := CameraPlace("A");
            var remap: map<Key, string> := map[KeyOf(OLD_ROW) := place][Physical("1", CAMERA_FILE) := place];
            var after := Moved(fs, CAMERA_FILE, place);
            && Selected(CameraJob(), OLD_ROW) && Selected(CameraJob(), NEW_ROW)
            && Decide(CameraJob(), fs, map[], OLD_ROW, false) == Outcome(Some(place), fs, remap, 1)
            && Decide(CameraJob(), fs, map[], OLD_ROW, true) == Outcome(Some(place), after, remap, 1)
            && Decide(CameraJob(), fs, remap, NEW_ROW, false).dst.Some?
            && Decide(CameraJob(), after, remap, NEW_ROW, true).dst.None?
  {
    CandidatesOfOldForm();
    OldFormIsLegacy();
    CameraFileIsLegacy();
    CameraPlaces();
    assert KeyOf(OLD_ROW) != KeyOf(NEW_ROW);
    assert FindFile(fs, OLD_FORM, "1") == Some(CAMERA_FILE) == FindFile(fs, CAMERA_FILE, "1");
    assert Dest(CameraJob(), OLD_ROW, CAMERA_FILE) == CameraPlace("A");
    assert FindFile(Moved(fs, CAMERA_FILE, CameraPlace("A")), CAMERA_FILE, "1") == None;
  }

  /** One file under two path forms: the dry run reports two rows, the real run repoints one. */
  lemma ADryRunMiscounts()
    ensures var fs: Disk<Bytes> := map[CAMERA_FILE := [7]];
            && Dry(CameraJob(), [OLD_ROW, NEW_ROW], fs, 2).updated == 2
            && Real(CameraJob(), [OLD_ROW, NEW_ROW], fs, 2).updated == 1
  {
    var rows := [OLD_ROW, NEW_ROW];
    var fs: Disk<Bytes> := map[CAMERA_FILE := [7]];
    TheTwoRowsAreDecided(fs);
    assert Dry(CameraJob(), rows, fs, 0) == State(fs, [], map[], 0, 0) == Real(CameraJob(), rows, fs, 0);
    assert Dry(CameraJob(), rows, fs, 1).updated == 1 == Real(CameraJob(), rows, fs, 1).updated;
  }
}
