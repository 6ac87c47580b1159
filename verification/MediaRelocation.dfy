/** Moving legacy media into company folders and repointing the rows that name it
    (scripts/relocate_userdata_layout.py, relocate_vehicle_media). */
module MediaRelocation {
  import opened Common
  import opened LegacyPaths

  type Bytes = seq<int>

  datatype Row = Row(id: int, account: string, vehicle: string, path: string)

  /** The old bucket, the new one, and the company folder of a vehicle. */
  datatype Job = Job(legacy: string, current: string, folder: (string, string) -> string)

  /** What the script's remap is keyed by: a stored path, or a file already handled. */
  datatype Key = Stored(account: string, path: string) | Physical(account: string, path: string)

  datatype State = State(fs: Disk<Bytes>, paths: seq<string>, remap: map<Key, string>, moved: nat, updated: nat)

  predicate Selected(job: Job, r: Row) {
    Contains(r.path, job.legacy + "/")
  }

  function KeyOf(r: Row): Key {
    Stored(r.account, r.path)
  }

  function Dest(job: Job, r: Row, src: string): string {
    AccountDir(r.account) + job.folder(r.account, r.vehicle) + "/" + job.current + "/" + Basename(src)
  }

  /** For one selected row: where it is to point, if anywhere new, and what changed. */
  datatype Outcome = Outcome(dst: Option<string>, fs: Disk<Bytes>, remap: map<Key, string>, moved: nat)

  /** A dry run reports what it would do. */
  function Decide(job: Job, fs: Disk<Bytes>, remap: map<Key, string>, r: Row, apply: bool): Outcome {
    if KeyOf(r) in remap then Outcome(Some(remap[KeyOf(r)]), fs, remap, 0)
    else
      match FindFile(fs, r.path, r.account)
      case None => Outcome(None, fs, remap, 0)
      case Some(src) =>
        if Physical(r.account, src) in remap then
          var dst := remap[Physical(r.account, src)];
          Outcome(Some(dst), fs, remap[KeyOf(r) := dst], 0)
        else
          var dst := Dest(job, r, src);
          if dst in fs then Outcome(None, fs, remap, 0)
          else Outcome(Some(dst), if apply then Moved(fs, src, dst) else fs,
                       remap[KeyOf(r) := dst][Physical(r.account, src) := dst], 1)
  }

  /** One row of the loop. */
  function Visit(job: Job, st: State, r: Row, apply: bool): State {
    if !Selected(job, r) then st.(paths := st.paths + [r.path])
    else
      var o := Decide(job, st.fs, st.remap, r, apply);
      State(o.fs, st.paths + [if apply && o.dst.Some? then o.dst.value else r.path],
            o.remap, st.moved + o.moved, if o.dst.Some? then st.updated + 1 else st.updated)
  }

  /** After the first n rows. */
  function RunTo(job: Job, rows: seq<Row>, fs: Disk<Bytes>, n: nat, apply: bool): (st: State)
    requires n <= |rows|
    ensures |st.paths| == n
  {
    if n == 0 then State(fs, [], map[], 0, 0)
    else Visit(job, RunTo(job, rows, fs, n - 1, apply), rows[n - 1], apply)
  }

  /** The disk, and the table in the order the SELECT returns it. */
  class Relocator {
    const store: FileStore<Bytes>
    var rows: seq<Row>

    constructor (store: FileStore<Bytes>, rows: seq<Row>)
      ensures this.store == store && this.rows == rows
    {
      this.store, this.rows := store, rows;
    }

    /** Where the row's file is to be found from now on, if this run moves or has moved it. */
    method Target(job: Job, r: Row, apply: bool, remap: map<Key, string>)
      returns (dst: Option<string>, remap': map<Key, string>, moved: nat)
      modifies store
      ensures Outcome(dst, store.fs, remap', moved) == Decide(job, old(store.fs), remap, r, apply)
    {
      remap', moved := remap, 0;
      if KeyOf(r) in remap {
        return Some(remap[KeyOf(r)]), remap, 0;
      }
      var src := FindFile(store.fs, r.path, r.account);
      if src.None? {
        return None, remap, 0;
      }
      if Physical(r.account, src.value) in remap {
        dst := Some(remap[Physical(r.account, src.value)]);
        remap' := remap'[KeyOf(r) := dst.value];
        return dst, remap', 0;
      }
      var target := Dest(job, r, src.value);
      var ok := store.Move(src.value, target, apply);
      if !ok {
        return None, remap, 0;
      }
      remap' := remap'[KeyOf(r) := target];
      remap' := remap'[Physical(r.account, src.value) := target];
      return Some(target), remap', 1;
    }

    method RelocateVehicleMedia(job: Job, apply: bool) returns (moved: nat, updated: nat)
      modifies this, store
      ensures var end := RunTo(job, old(rows), old(store.fs), |old(rows)|, apply);
              && store.fs == end.fs && moved == end.moved && updated == end.updated
              && Repointed(rows, old(rows), end.paths)
    {
      var selected := rows;
      var remap: map<Key, string> := map[];
      moved, updated := 0, 0;
      ghost var st := RunTo(job, selected, store.fs, 0, apply);
      for n := 0 to |selected|
        invariant st == RunTo(job, selected, old(store.fs), n, apply)
        invariant st == State(store.fs, st.paths, remap, moved, updated)
        invariant Repointed(rows, selected, st.paths)
      {
        var r := selected[n];
        var dst: Option<string> := None;
        if Selected(job, r) {
          var more;
          dst, remap, more := Target(job, r, apply, remap);
          moved := moved + more;
        }
        ghost var path := if apply && dst.Some? then dst.value else r.path;
        RepointedNext(rows, selected, st.paths, path);
        if dst.Some? {
          if apply {
            rows := rows[n := r.(path := dst.value)];
          }
          updated := updated + 1;
        }
        st := Visit(job, st, r, apply);
      }
    }
  }

  /** The first rows have these paths, the others their old ones. */
  ghost predicate Repointed(now: seq<Row>, was: seq<Row>, paths: seq<string>) {
    && |paths| <= |now| == |was|
    && (forall i | 0 <= i < |paths| :: now[i] == was[i].(path := paths[i]))
    && (forall i | |paths| <= i < |was| :: now[i] == was[i])
  }

  lemma RepointedNext(now: seq<Row>, was: seq<Row>, paths: seq<string>, path: string)
    requires Repointed(now, was, paths) && |paths| < |was|
    ensures Repointed(now[|paths| := was[|paths|].(path := path)], was, paths + [path])
    ensures path == was[|paths|].path ==> Repointed(now, was, paths + [path])
  {
  }

  /** Whatever the rows and the disk, every content stays as often as it was there. */
  lemma {:induction false} ContentIsConserved(job: Job, rows: seq<Row>, fs: Disk<Bytes>, n: nat, apply: bool, b: Bytes)
    requires n <= |rows|
    ensures Copies(RunTo(job, rows, fs, n, apply).fs, b) == Copies(fs, b)
  {
    if n > 0 {
      ContentIsConserved(job, rows, fs, n - 1, apply, b);
      var st := RunTo(job, rows, fs, n - 1, apply);
      var src := FindFile(st.fs, rows[n - 1].path, rows[n - 1].account);
      if src.Some? && Dest(job, rows[n - 1], src.value) !in st.fs {
        MoveConserves(st.fs, src.value, Dest(job, rows[n - 1], src.value), b);
      }
    }
  }

  // ---- What a run is given ----

  /** The bucket is one path component and starts with no letter of "data/"; no directory on
      the way to a destination ends with its name. */
  ghost predicate CleanNames(job: Job, rows: seq<Row>) {
    && job.legacy != "" && NoSlash(job.legacy) && job.legacy[0] !in "data/"
    && !EndsWith("data", job.legacy) && !EndsWith("userdata", job.legacy)
    && NoSlash(job.current) && !EndsWith(job.current, job.legacy)
    && forall i | 0 <= i < |rows| ::
         var folder := job.folder(rows[i].account, rows[i].vehicle);
         && NoSlash(rows[i].account) && !EndsWith("account-" + rows[i].account, job.legacy)
         && NoSlash(folder) && !EndsWith(folder, job.legacy)
  }

  function Home(rows: seq<Row>, fs: Disk<Bytes>, i: nat): Option<string>
    requires i < |rows|
  {
    FindFile(fs, rows[i].path, rows[i].account)
  }

  // ---- Destinations are not in the legacy bucket ----

  lemma OneComponent(x: string, y: string, seg: string)
    requires NoSlash(seg) && NoSlash(x) && !EndsWith(x, seg) && !Contains(y, seg + "/")
    ensures !Contains(x + "/" + y, seg + "/")
  {
    if Contains(x + "/" + y, seg + "/") {
      BucketOnOneSide(x, y, seg);
      NoSlashNoBucket(x, seg);
    }
  }

  lemma NoSlashNoBucket(x: string, seg: string)
    requires NoSlash(x)
    ensures !Contains(x, seg + "/")
  {
    var t := seg + "/";
    forall k: int ensures !OccursAt(x, t, k) {
      if 0 <= k <= |x| - |t| {
        assert x[k..k + |t|][|seg|] == x[k + |seg|];
        assert t[|seg|] == '/';
      }
    }
  }

  lemma DestIsNotLegacy(job: Job, rows: seq<Row>, i: nat, src: string)
    requires CleanNames(job, rows) && i < |rows|
    ensures !Contains(Dest(job, rows[i], src), job.legacy + "/")
    ensures TENANT_ROOT <= Dest(job, rows[i], src)
  {
    var seg := job.legacy;
    var folder := job.folder(rows[i].account, rows[i].vehicle);
    var d0 := Basename(src);
    BasenameHasNoSlash(src);
    NoSlashNoBucket(d0, seg);
    var d1 := job.current + "/" + d0;
    OneComponent(job.current, d0, seg);
    var d2 := folder + "/" + d1;
    OneComponent(folder, d1, seg);
    var d3 := "account-" + rows[i].account + "/" + d2;
    OneComponent("account-" + rows[i].account, d2, seg);
    var d4 := "userdata" + "/" + d3;
    OneComponent("userdata", d3, seg);
    OneComponent("data", d4, seg);
    assert "data" + "/" + d4 == Dest(job, rows[i], src);
  }

  lemma StrippedOutside(stored: string, t: string)
    requires !Contains(stored, t)
    ensures !Contains(LStrip(stored), t)
  {
    var rel := LStrip(stored);
    LStripIsSuffix(stored);
    var front := stored[..|stored| - |rel|];
    assert front + rel == stored;
    if Contains(rel, t) {
      PrefixShifts(front, rel, t);
    }
  }

  lemma TailOutside(rel: string, t: string)
    requires |rel| >= 5 && !Contains(rel, t)
    ensures !Contains(rel[5..], t)
  {
    assert rel[..5] + rel[5..] == rel;
    if Contains(rel[5..], t) {
      PrefixShifts(rel[..5], rel[5..], t);
    }
  }

  lemma TenantPathOutside(account: string, rest: string, seg: string)
    requires NoSlash(seg) && NoSlash(account) && !EndsWith("account-" + account, seg)
    requires !EndsWith("data", seg) && !EndsWith("userdata", seg) && !Contains(rest, seg + "/")
    ensures !Contains(AccountDir(account) + rest, seg + "/")
  {
    var d1 := "account-" + account + "/" + rest;
    OneComponent("account-" + account, rest, seg);
    var d2 := "userdata" + "/" + d1;
    OneComponent("userdata", d1, seg);
    OneComponent("data", d2, seg);
    assert "data" + "/" + d2 == AccountDir(account) + rest;
  }

  /** Nor is any place where a path outside the bucket is looked for. */
  lemma OutsideStaysOutside(job: Job, rows: seq<Row>, i: nat)
    requires CleanNames(job, rows) && i < |rows| && !Selected(job, rows[i])
    ensures forall c | c in LegacyCandidates(rows[i].path, rows[i].account) :: !Contains(c, job.legacy + "/")
  {
    var t, rel := job.legacy + "/", LStrip(rows[i].path);
    StrippedOutside(rows[i].path, t);
    if PreTenant(rel) {
      TailOutside(rel, t);
      TenantPathOutside(rows[i].account, rel[5..], job.legacy);
    }
  }

  // ---- What holds after any number of rows ----

  /** A file put there by the run: never in the legacy bucket. */
  predicate New(job: Job, p: string) {
    !Contains(p, job.legacy + "/") && TENANT_ROOT <= p
  }

  /** Files that are gone were in the legacy bucket, files that came are not, and the rest
      are as they were. */
  ghost predicate DiskOk(job: Job, fs: Disk<Bytes>, now: Disk<Bytes>) {
    && (forall p | p in fs && p !in now :: Contains(p, job.legacy + "/"))
    && (forall p | p in now && p !in fs :: New(job, p))
    && (forall p | p in now && p in fs :: now[p] == fs[p])
  }

  /** As long as the file a row named is there the row finds it, and its path has not been
      remapped; a legacy path that named nothing names nothing. */
  ghost predicate HomeOk(job: Job, rows: seq<Row>, fs: Disk<Bytes>, st: State, i: nat)
    requires i < |rows|
  {
    var r := rows[i];
    match Home(rows, fs, i)
    case Some(c) => c in st.fs ==> FindFile(st.fs, r.path, r.account) == Some(c) && KeyOf(r) !in st.remap
    case None => Selected(job, r) ==> KeyOf(r) !in st.remap && FindFile(st.fs, r.path, r.account) == None
  }

  /** A visited row has its old path or the new place of a file. */
  ghost predicate PathOk(rows: seq<Row>, st: State, i: nat)
    requires i < |rows| && i < |st.paths|
  {
    st.paths[i] == rows[i].path || (KeyOf(rows[i]) in st.remap && st.paths[i] == st.remap[KeyOf(rows[i])])
  }

  ghost predicate RemapOk(job: Job, st: State) {
    && (forall a, p | Stored(a, p) in st.remap ::
          Contains(p, job.legacy + "/") && st.remap[Stored(a, p)] in st.fs && New(job, st.remap[Stored(a, p)]))
    && (forall a, p | Physical(a, p) in st.remap :: p !in st.fs && Contains(p, job.legacy + "/"))
  }

  ghost predicate Inv(job: Job, rows: seq<Row>, fs: Disk<Bytes>, st: State) {
    && |st.paths| <= |rows|
    && DiskOk(job, fs, st.fs) && RemapOk(job, st)
    && (forall i: nat | i < |rows| :: HomeOk(job, rows, fs, st, i))
    && (forall i: nat | i < |st.paths| :: PathOk(rows, st, i))
  }

  /** A file other than the one moved is found where it was. */
  lemma FindAfterMove(job: Job, fs: Disk<Bytes>, src: string, dst: string, stored: string, account: string)
    requires src in fs && dst !in fs && New(job, dst)
    ensures FindFile(fs, stored, account).Some? && FindFile(fs, stored, account) != Some(src) ==>
              FindFile(Moved(fs, src, dst), stored, account) == FindFile(fs, stored, account)
  {
  }

  /** A path in the legacy bucket that named nothing names nothing new. */
  lemma StillMissing(job: Job, fs: Disk<Bytes>, src: string, dst: string, stored: string, account: string)
    requires src in fs && New(job, dst) && FindFile(fs, stored, account) == None
    requires job.legacy != "" && job.legacy[0] !in "data/" && Contains(stored, job.legacy + "/")
    ensures FindFile(Moved(fs, src, dst), stored, account) == None
  {
    CandidatesKeep(stored, account, job.legacy + "/");
    var rel := LStrip(stored);
    assert rel in LegacyCandidates(stored, account) by {
      assert LegacyCandidates(stored, account)[0] == rel;
    }
    if PreTenant(rel) {
      assert LegacyCandidates(stored, account)[1] == AccountDir(account) + rel[5..];
    }
  }

  lemma LegacySource(job: Job, fs: Disk<Bytes>, r: Row)
    requires job.legacy != "" && job.legacy[0] !in "data/" && Selected(job, r) && FindFile(fs, r.path, r.account).Some?
    ensures Contains(FindFile(fs, r.path, r.account).value, job.legacy + "/")
  {
    CandidatesKeep(r.path, r.account, job.legacy + "/");
  }

  /** The file that visiting the next row moves, if any. */
  function NextMove(job: Job, rows: seq<Row>, st: State): Option<string>
    requires |st.paths| < |rows|
  {
    var r := rows[|st.paths|];
    var src := FindFile(st.fs, r.path, r.account);
    if Selected(job, r) && KeyOf(r) !in st.remap && src.Some?
       && Physical(r.account, src.value) !in st.remap && Dest(job, r, src.value) !in st.fs
    then src else None
  }

  /** What a visit does: it moves that file and remaps both keys, or changes neither the disk
      nor the remap; and the row gets the place its path is remapped to, if it is. */
  lemma VisitShape(job: Job, rows: seq<Row>, fs: Disk<Bytes>, st: State)
    requires CleanNames(job, rows) && Inv(job, rows, fs, st) && |st.paths| < |rows|
    ensures var r := rows[|st.paths|];
            var st' := Visit(job, st, r, true);
            && |st'.paths| == |st.paths| + 1 && st'.paths[..|st.paths|] == st.paths
            && st'.paths[|st.paths|] == (if KeyOf(r) in st'.remap then st'.remap[KeyOf(r)] else r.path)
            && match NextMove(job, rows, st)
               case None => st'.fs == st.fs && st'.remap == st.remap
               case Some(src) =>
                 var dst := Dest(job, r, src);
                 && src in st.fs && src in fs && Contains(src, job.legacy + "/") && New(job, dst) && dst !in st.fs
                 && st'.fs == Moved(st.fs, src, dst)
                 && st'.remap == st.remap[KeyOf(r) := dst][Physical(r.account, src) := dst]
  {
    var r := rows[|st.paths|];
    var src := FindFile(st.fs, r.path, r.account);
    if Selected(job, r) && src.Some? {
      LegacySource(job, st.fs, r);
      DestIsNotLegacy(job, rows, |st.paths|, src.value);
    }
  }

  lemma VisitKeepsHome(job: Job, rows: seq<Row>, fs: Disk<Bytes>, st: State, i: nat)
    requires CleanNames(job, rows) && Inv(job, rows, fs, st) && |st.paths| < |rows| && i < |rows|
    ensures HomeOk(job, rows, fs, Visit(job, st, rows[|st.paths|], true), i)
  {
    var n := |st.paths|;
    var src := NextMove(job, rows, st);
    VisitShape(job, rows, fs, st);
    assert HomeOk(job, rows, fs, st, i);
    if src.Some? {
      var dst := Dest(job, rows[n], src.value);
      FindAfterMove(job, st.fs, src.value, dst, rows[i].path, rows[i].account);
      if Home(rows, fs, i).None? && Selected(job, rows[i]) {
        StillMissing(job, st.fs, src.value, dst, rows[i].path, rows[i].account);
      }
    }
  }

  lemma VisitKeepsInv(job: Job, rows: seq<Row>, fs: Disk<Bytes>, st: State)
    requires CleanNames(job, rows) && Inv(job, rows, fs, st) && |st.paths| < |rows|
    ensures Inv(job, rows, fs, Visit(job, st, rows[|st.paths|], true))
  {
    var n := |st.paths|;
    var st' := Visit(job, st, rows[n], true);
    VisitShape(job, rows, fs, st);
    forall i: nat | i < |rows| ensures HomeOk(job, rows, fs, st', i) {
      VisitKeepsHome(job, rows, fs, st, i);
    }
    forall i: nat | i < |st'.paths| ensures PathOk(rows, st', i) {
      if i < n {
        assert PathOk(rows, st, i) && st'.paths[..n][i] == st.paths[i];
      }
    }
  }

  lemma StartInv(job: Job, rows: seq<Row>, fs: Disk<Bytes>)
    ensures Inv(job, rows, fs, State(fs, [], map[], 0, 0))
  {
  }

  /** After any number of rows, for any table and disk: no file is overwritten, only legacy files
      are gone, and a row whose file is still there finds it. */
  lemma {:induction false} RunKeepsInv(job: Job, rows: seq<Row>, fs: Disk<Bytes>, n: nat)
    requires CleanNames(job, rows) && n <= |rows|
    ensures Inv(job, rows, fs, RunTo(job, rows, fs, n, true))
  {
    if n == 0 {
      StartInv(job, rows, fs);
    } else {
      var st := RunTo(job, rows, fs, n - 1, true);
      RunKeepsInv(job, rows, fs, n - 1);
      VisitKeepsInv(job, rows, fs, st);
      assert RunTo(job, rows, fs, n, true) == Visit(job, st, rows[|st.paths|], true);
    }
  }

  // ---- One row, field by field ----

  /** The destination of a file: the tenant's directory, the company's folder, the new bucket, and
      the name of the file. */
  lemma DestIs(job: Job, r: Row, src: string)
    ensures Dest(job, r, src) ==
            "data/userdata/account-" + r.account + "/" + job.folder(r.account, r.vehicle) + "/" + job.current + "/"
            + Basename(src)
  {
  }

  /** What is decided about a selected row: the new place of its stored path if there is one; else
      nothing if its file is missing; else the new place of its file; else the move, if the name
      is free. A dry run decides the same and moves nothing. */
  lemma DecidesInFields(job: Job, fs: Disk<Bytes>, remap: map<Key, string>, r: Row, apply: bool)
    ensures var o, found := Decide(job, fs, remap, r, apply), FindFile(fs, r.path, r.account);
            var stored := Stored(r.account, r.path);
            && (stored in remap ==> o == Outcome(Some(remap[stored]), fs, remap, 0))
            && (stored !in remap && found == None ==> o == Outcome(None, fs, remap, 0))
            && (stored !in remap && found != None ==>
                  var src := found.value;
                  var file, dst := Physical(r.account, src), Dest(job, r, src);
                  && (file in remap ==> o == Outcome(Some(remap[file]), fs, remap[stored := remap[file]], 0))
                  && (file !in remap && dst in fs ==> o == Outcome(None, fs, remap, 0))
                  && (file !in remap && dst !in fs ==>
                        && o.dst == Some(dst) && o.moved == 1
                        && o.remap == remap[file := dst][stored := dst]
                        && o.fs == if apply then fs[dst := fs[src]] - {src} else fs))
  {
  }

  /** A row is selected when its path has the legacy bucket in it. A row that is decided upon counts
      as updated, and in a real run gets its new path; any other keeps its own. */
  lemma VisitsInFields(job: Job, st: State, r: Row, apply: bool)
    ensures var st', o := Visit(job, st, r, apply), Decide(job, st.fs, st.remap, r, apply);
            var selected := Contains(r.path, job.legacy + "/");
            && |st'.paths| == |st.paths| + 1 && st'.paths[..|st.paths|] == st.paths
            && (!selected ==> st' == st.(paths := st.paths + [r.path]))
            && (selected ==>
                  && st'.fs == o.fs && st'.remap == o.remap && st'.moved == st.moved + o.moved
                  && st'.updated == st.updated + (if o.dst == None then 0 else 1)
                  && st'.paths[|st.paths|] == if apply && o.dst != None then o.dst.value else r.path)
  {
  }

  /** The number of rows with another path after the run. */
  function Repaired(rows: seq<Row>, paths: seq<string>): nat
    requires |paths| <= |rows|
  {
    |set i | 0 <= i < |paths| && paths[i] != rows[i].path|
  }

  lemma RepairedNext(rows: seq<Row>, paths: seq<string>, path: string)
    requires |paths| < |rows|
    ensures Repaired(rows, paths + [path]) == Repaired(rows, paths) + if path != rows[|paths|].path then 1 else 0
  {
    var was := set i | 0 <= i < |paths| && paths[i] != rows[i].path;
    var now := set i | 0 <= i < |paths + [path]| && (paths + [path])[i] != rows[i].path;
    assert now == was + if path != rows[|paths|].path then {|paths|} else {};
  }

  /** A real run reports as repointed exactly the rows whose path it changed. */
  lemma {:induction false} UpdatedIsRepaired(job: Job, rows: seq<Row>, fs: Disk<Bytes>, n: nat)
    requires CleanNames(job, rows) && n <= |rows|
    ensures var st := RunTo(job, rows, fs, n, true);
            |st.paths| == n && st.updated == Repaired(rows, st.paths)
  {
    if n > 0 {
      var st := RunTo(job, rows, fs, n - 1, true);
      UpdatedIsRepaired(job, rows, fs, n - 1);
      RepointsElsewhere(job, rows, fs, n - 1);
      VisitRepairs(job, rows, st);
      assert RunTo(job, rows, fs, n, true) == Visit(job, st, rows[n - 1], true);
    }
  }

  lemma VisitRepairs(job: Job, rows: seq<Row>, st: State)
    requires |st.paths| < |rows| && st.updated == Repaired(rows, st.paths)
    requires var r := rows[|st.paths|];
             var o := Decide(job, st.fs, st.remap, r, true);
             Selected(job, r) && o.dst.Some? ==> o.dst.value != r.path
    ensures var st' := Visit(job, st, rows[|st.paths|], true);
            |st'.paths| == |st.paths| + 1 && st'.updated == Repaired(rows, st'.paths)
  {
    var r := rows[|st.paths|];
    var o := Decide(job, st.fs, st.remap, r, true);
    RepairedNext(rows, st.paths, if Selected(job, r) && o.dst.Some? then o.dst.value else r.path);
  }

  /** A row that is repointed had a legacy path, and its new one is not. */
  lemma RepointsElsewhere(job: Job, rows: seq<Row>, fs: Disk<Bytes>, i: nat)
    requires CleanNames(job, rows) && i < |rows|
    ensures var st := RunTo(job, rows, fs, i, true);
            var o := Decide(job, st.fs, st.remap, rows[i], true);
            Selected(job, rows[i]) && o.dst.Some? ==> o.dst.value != rows[i].path
  {
    var st := RunTo(job, rows, fs, i, true);
    var found := FindFile(st.fs, rows[i].path, rows[i].account);
    RunKeepsInv(job, rows, fs, i);
    if found.Some? {
      DestIsNotLegacy(job, rows, i, found.value);
    }
  }
}
