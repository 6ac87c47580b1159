/** Moving a company-branded application's files (scripts/relocate_userdata_layout.py,
    relocate_applications). Its row refers to files by the document slots and then by the
    signature column, and the signature is also stored as a slot
    (adapters/storage/applications.py:325-327). */
module ApplicationRelocation {
  import opened Common
  import opened LegacyPaths

  type Bytes = seq<int>

  datatype Doc = Doc(slot: string, path: string)

  /** Where the application's files are and where they go. */
  datatype Job = Job(account: string, oldPrefix: string, newPrefix: string)

  datatype State = State(fs: Disk<Bytes>, paths: seq<string>)

  function Target(job: Job, path: string): string {
    job.newPrefix + Basename(path)
  }

  datatype Placed = Placed(fs: Disk<Bytes>, path: string)

  /** One reference: its file moves if it is there and the target is free. */
  function Place(job: Job, fs: Disk<Bytes>, path: string): Placed {
    var src := FindFile(fs, path, job.account);
    if job.oldPrefix <= path && src.Some? && Target(job, path) !in fs
    then Placed(Moved(fs, src.value, Target(job, path)), Target(job, path))
    else Placed(fs, path)
  }

  function Visit(job: Job, st: State, path: string): State {
    var o := Place(job, st.fs, path);
    State(o.fs, st.paths + [o.path])
  }

  function RunTo(job: Job, refs: seq<string>, fs: Disk<Bytes>, n: nat): (st: State)
    requires n <= |refs|
    ensures |st.paths| == n
  {
    if n == 0 then State(fs, []) else Visit(job, RunTo(job, refs, fs, n - 1), refs[n - 1])
  }

  function Paths(docs: seq<Doc>): seq<string> {
    seq(|docs|, i requires 0 <= i < |docs| => docs[i].path)
  }

  /** The references of a row, in the order they are handled. */
  function Refs(docs: seq<Doc>, sig: string): seq<string> {
    Paths(docs) + [sig]
  }

  lemma RefsAt(docs: seq<Doc>, sig: string)
    ensures |Refs(docs, sig)| == |docs| + 1 && Refs(docs, sig)[|docs|] == sig
    ensures forall i | 0 <= i < |docs| :: Refs(docs, sig)[i] == docs[i].path
  {
  }

  lemma RefsAre(docs: seq<Doc>, sig: string, paths: seq<string>)
    requires |paths| == |docs| + 1 && paths[|docs|] == sig && forall i | 0 <= i < |docs| :: paths[i] == docs[i].path
    ensures paths == Refs(docs, sig)
  {
    RefsAt(docs, sig);
  }

  method RelocateReference(store: FileStore<Bytes>, job: Job, path: string) returns (now: string)
    modifies store
    ensures Placed(store.fs, now) == Place(job, old(store.fs), path)
  {
    now := path;
    if job.oldPrefix <= path {
      var src := FindFile(store.fs, path, job.account);
      if src.Some? {
        var ok := store.Move(src.value, Target(job, path), true);
        if ok {
          now := Target(job, path);
        }
      }
    }
  }

  method RelocateApplication(store: FileStore<Bytes>, job: Job, docs: seq<Doc>, sig: string)
    returns (docs': seq<Doc>, sig': string)
    modifies store
    ensures |docs'| == |docs| && forall i | 0 <= i < |docs| :: docs'[i].slot == docs[i].slot
    ensures State(store.fs, Refs(docs', sig')) == RunTo(job, Refs(docs, sig), old(store.fs), |docs| + 1)
  {
    docs' := [];
    ghost var refs := Refs(docs, sig);
    RefsAt(docs, sig);
    ghost var st := RunTo(job, refs, store.fs, 0);
    for i := 0 to |docs|
      invariant |docs'| == i && forall j | 0 <= j < i :: docs'[j].slot == docs[j].slot
      invariant st == RunTo(job, refs, old(store.fs), i)
      invariant st.fs == store.fs && forall j | 0 <= j < i :: docs'[j].path == st.paths[j]
    {
      st := Visit(job, st, docs[i].path);
      var path := RelocateReference(store, job, docs[i].path);
      docs' := docs' + [Doc(docs[i].slot, path)];
    }
    sig' := RelocateReference(store, job, sig);
    st := Visit(job, st, sig);
    RefsAre(docs', sig', st.paths);
  }

  /** The prefixes are under the tenant root, and the new one is not inside the old. */
  predicate Apart(job: Job) {
    TENANT_ROOT <= job.oldPrefix && |job.oldPrefix| <= |job.newPrefix| && !(job.oldPrefix <= job.newPrefix)
  }

  /** A reference under the old prefix to a file that is there. */
  predicate Readable(job: Job, fs: Disk<Bytes>, p: string) {
    job.oldPrefix <= p && p in fs
  }

  /** The i-th reference moves its file: it is the first to a file with that target, and the
      target was free. */
  predicate Wins(job: Job, refs: seq<string>, fs: Disk<Bytes>, i: int) {
    && 0 <= i < |refs| && Readable(job, fs, refs[i]) && Target(job, refs[i]) !in fs
    && forall j | 0 <= j < i && Readable(job, fs, refs[j]) :: Target(job, refs[j]) != Target(job, refs[i])
  }

  /** One of the first n references moves p. */
  predicate MovedAmong(job: Job, refs: seq<string>, fs: Disk<Bytes>, n: nat, p: string)
    requires n <= |refs|
  {
    exists i | 0 <= i < n :: Lands(job, refs, fs, i, p)
  }

  /** The i-th reference moves p. */
  predicate Lands(job: Job, refs: seq<string>, fs: Disk<Bytes>, i: int, p: string) {
    Wins(job, refs, fs, i) && refs[i] == p
  }

  lemma ModernPathIsItself(job: Job, fs: Disk<Bytes>, p: string)
    requires Apart(job) && job.oldPrefix <= p
    ensures FindFile(fs, p, job.account) == if p in fs then Some(p) else None
  {
    assert TENANT_ROOT <= p;
    assert p[0] == TENANT_ROOT[0];
  }

  lemma TargetIsOutside(job: Job, p: string)
    requires Apart(job)
    ensures !(job.oldPrefix <= Target(job, p))
  {
    assert job.newPrefix[..|job.oldPrefix|] == Target(job, p)[..|job.oldPrefix|];
  }

  ghost predicate NewFilesLanded(job: Job, refs: seq<string>, fs: Disk<Bytes>, n: nat, now: Disk<Bytes>)
    requires n <= |refs|
  {
    forall q | q in now && q !in fs :: exists i | 0 <= i < n :: Wins(job, refs, fs, i) && Target(job, refs[i]) == q
  }

  /** A file after n references: moved by one of them, else as it was. */
  predicate FileOk(job: Job, refs: seq<string>, fs: Disk<Bytes>, n: nat, now: Disk<Bytes>, p: string)
    requires n <= |refs|
  {
    p in fs ==>
      if MovedAmong(job, refs, fs, n, p)
      then p !in now && Target(job, p) in now && now[Target(job, p)] == fs[p]
      else p in now && now[p] == fs[p]
  }

  ghost predicate DiskOk(job: Job, refs: seq<string>, fs: Disk<Bytes>, n: nat, now: Disk<Bytes>)
    requires n <= |refs|
  {
    NewFilesLanded(job, refs, fs, n, now) && forall p :: FileOk(job, refs, fs, n, now, p)
  }

  /** Of the references that claim a free target, the first wins. */
  lemma WinnerExists(job: Job, refs: seq<string>, fs: Disk<Bytes>, i: nat) returns (w: nat)
    requires i < |refs| && Readable(job, fs, refs[i]) && Target(job, refs[i]) !in fs
    ensures w <= i && Wins(job, refs, fs, w) && Target(job, refs[w]) == Target(job, refs[i])
  {
    if Wins(job, refs, fs, i) {
      w := i;
    } else {
      var j :| 0 <= j < i && Readable(job, fs, refs[j]) && Target(job, refs[j]) == Target(job, refs[i]);
      w := WinnerExists(job, refs, fs, j);
    }
  }

  /** A reference moves its file exactly when it wins. */
  lemma VisitByStart(job: Job, refs: seq<string>, fs: Disk<Bytes>, n: nat, now: Disk<Bytes>)
    requires Apart(job) && n < |refs| && DiskOk(job, refs, fs, n, now)
    ensures var p := refs[n];
            if Wins(job, refs, fs, n)
            then p in now && Target(job, p) !in now
                 && Place(job, now, p) == Placed(Moved(now, p, Target(job, p)), Target(job, p))
            else Place(job, now, p) == Placed(now, p)
  {
    var p := refs[n];
    if job.oldPrefix <= p {
      ModernPathIsItself(job, now, p);
      TargetIsOutside(job, p);
      assert FileOk(job, refs, fs, n, now, p) && FileOk(job, refs, fs, n, now, Target(job, p));
      if p !in fs {
        AbsentStaysAbsent(job, refs, fs, n, now, p);
      } else if Target(job, p) in fs {
        NotMovedOutside(job, refs, fs, n, Target(job, p));
      } else if Wins(job, refs, fs, n) {
        WinnerIsFree(job, refs, fs, n, now);
      } else {
        var w := WinnerExists(job, refs, fs, n);
        assert Lands(job, refs, fs, w, refs[w]) && MovedAmong(job, refs, fs, n, refs[w]);
        assert FileOk(job, refs, fs, n, now, refs[w]);
      }
    }
  }

  lemma AbsentStaysAbsent(job: Job, refs: seq<string>, fs: Disk<Bytes>, n: nat, now: Disk<Bytes>, p: string)
    requires Apart(job) && n < |refs| && DiskOk(job, refs, fs, n, now) && job.oldPrefix <= p && p !in fs
    ensures p !in now
  {
    forall i | 0 <= i < n && Wins(job, refs, fs, i) ensures Target(job, refs[i]) != p {
      TargetIsOutside(job, refs[i]);
    }
  }

  lemma NotMovedOutside(job: Job, refs: seq<string>, fs: Disk<Bytes>, n: nat, q: string)
    requires n <= |refs| && !(job.oldPrefix <= q)
    ensures !MovedAmong(job, refs, fs, n, q)
  {
  }

  lemma WinnerIsFree(job: Job, refs: seq<string>, fs: Disk<Bytes>, n: nat, now: Disk<Bytes>)
    requires n < |refs| && DiskOk(job, refs, fs, n, now) && Wins(job, refs, fs, n)
    ensures refs[n] in now && Target(job, refs[n]) !in now
  {
    assert FileOk(job, refs, fs, n, now, refs[n]);
    forall i | 0 <= i < n ensures !Lands(job, refs, fs, i, refs[n]) {
      assert Wins(job, refs, fs, i) ==> Readable(job, fs, refs[i]);
    }
    forall i | 0 <= i < n && Wins(job, refs, fs, i) ensures Target(job, refs[i]) != Target(job, refs[n]) {
      assert Readable(job, fs, refs[i]);
    }
  }

  lemma MovedAmongNext(job: Job, refs: seq<string>, fs: Disk<Bytes>, n: nat, p: string)
    requires n < |refs|
    ensures MovedAmong(job, refs, fs, n + 1, p) <==> MovedAmong(job, refs, fs, n, p) || Lands(job, refs, fs, n, p)
  {
    if MovedAmong(job, refs, fs, n + 1, p) {
      var i :| 0 <= i < n + 1 && Lands(job, refs, fs, i, p);
      assert i < n || i == n;
    }
  }

  lemma LandingsNext(job: Job, refs: seq<string>, fs: Disk<Bytes>, n: nat, now: Disk<Bytes>)
    requires n < |refs| && NewFilesLanded(job, refs, fs, n, now)
    ensures NewFilesLanded(job, refs, fs, n + 1, now)
    ensures Wins(job, refs, fs, n) && refs[n] in now ==>
              NewFilesLanded(job, refs, fs, n + 1, Moved(now, refs[n], Target(job, refs[n])))
  {
    forall q | q in now && q !in fs
      ensures exists i | 0 <= i < n + 1 :: Wins(job, refs, fs, i) && Target(job, refs[i]) == q
    {
      var i :| 0 <= i < n && Wins(job, refs, fs, i) && Target(job, refs[i]) == q;
    }
  }

  lemma MoveKeepsFile(job: Job, refs: seq<string>, fs: Disk<Bytes>, n: nat, now: Disk<Bytes>, p: string)
    requires Apart(job) && n < |refs| && DiskOk(job, refs, fs, n, now) && Wins(job, refs, fs, n)
    requires refs[n] in now && Target(job, refs[n]) !in now
    ensures FileOk(job, refs, fs, n + 1, Moved(now, refs[n], Target(job, refs[n])), p)
  {
    assert FileOk(job, refs, fs, n, now, p) && FileOk(job, refs, fs, n, now, refs[n]);
    MovedAmongNext(job, refs, fs, n, p);
    TargetIsOutside(job, p);
    TargetIsOutside(job, refs[n]);
  }

  lemma VisitKeepsDisk(job: Job, refs: seq<string>, fs: Disk<Bytes>, n: nat, now: Disk<Bytes>)
    requires Apart(job) && n < |refs| && DiskOk(job, refs, fs, n, now)
    ensures DiskOk(job, refs, fs, n + 1, Place(job, now, refs[n]).fs)
  {
    var m, after := n + 1, Place(job, now, refs[n]).fs;
    VisitByStart(job, refs, fs, n, now);
    LandingsNext(job, refs, fs, n, now);
    forall p ensures FileOk(job, refs, fs, m, after, p) {
      assert FileOk(job, refs, fs, n, now, p);
      MovedAmongNext(job, refs, fs, n, p);
      if Wins(job, refs, fs, n) {
        MoveKeepsFile(job, refs, fs, n, now, p);
      }
    }
  }

  lemma StartDisk(job: Job, refs: seq<string>, fs: Disk<Bytes>)
    ensures DiskOk(job, refs, fs, 0, fs)
  {
  }

  /** File by file: a file is moved exactly when some reference wins it, and keeps its bytes. */
  lemma {:induction false} RunKeepsDisk(job: Job, refs: seq<string>, fs: Disk<Bytes>, n: nat)
    requires Apart(job) && n <= |refs|
    ensures DiskOk(job, refs, fs, n, RunTo(job, refs, fs, n).fs)
  {
    if n == 0 {
      StartDisk(job, refs, fs);
    } else {
      var now := RunTo(job, refs, fs, n - 1).fs;
      RunKeepsDisk(job, refs, fs, n - 1);
      VisitKeepsDisk(job, refs, fs, n - 1, now);
      assert RunTo(job, refs, fs, n).fs == Place(job, now, refs[n - 1]).fs;
    }
  }

  lemma VisitAppends(job: Job, st: State, path: string)
    ensures var st' := Visit(job, st, path);
            |st'.paths| == |st.paths| + 1 && forall i | 0 <= i < |st.paths| :: st'.paths[i] == st.paths[i]
  {
  }

  lemma {:induction false} PathsByStart(job: Job, refs: seq<string>, fs: Disk<Bytes>, n: nat, i: nat)
    requires Apart(job) && i < n <= |refs|
    ensures RunTo(job, refs, fs, n).paths[i] == if Wins(job, refs, fs, i) then Target(job, refs[i]) else refs[i]
  {
    if i == n - 1 {
      RunKeepsDisk(job, refs, fs, i);
      VisitByStart(job, refs, fs, i, RunTo(job, refs, fs, i).fs);
    } else {
      var st := RunTo(job, refs, fs, n - 1);
      PathsByStart(job, refs, fs, n - 1, i);
      VisitAppends(job, st, refs[n - 1]);
      assert RunTo(job, refs, fs, n) == Visit(job, st, refs[n - 1]);
    }
  }

  /** For any references: one that led to a file still leads to its bytes exactly when no
      reference wins the file or this one does, that is, when the file stays where it is or this
      is the first reference with its target. The bytes are always somewhere. */
  lemma ReferenceFollowsIff(job: Job, refs: seq<string>, fs: Disk<Bytes>, i: nat)
    requires Apart(job) && i < |refs| && refs[i] in fs
    ensures var st := RunTo(job, refs, fs, |refs|);
            (st.paths[i] in st.fs && st.fs[st.paths[i]] == fs[refs[i]]) <==>
            (MovedAmong(job, refs, fs, |refs|, refs[i]) ==> Wins(job, refs, fs, i))
    ensures var st := RunTo(job, refs, fs, |refs|);
            exists q | q in st.fs :: st.fs[q] == fs[refs[i]]
  {
    var p := refs[i];
    var st := RunTo(job, refs, fs, |refs|);
    RunKeepsDisk(job, refs, fs, |refs|);
    PathsByStart(job, refs, fs, |refs|, i);
    assert FileOk(job, refs, fs, |refs|, st.fs, p);
    assert Wins(job, refs, fs, i) ==> Lands(job, refs, fs, i, p);
    var q := if MovedAmong(job, refs, fs, |refs|, p) then Target(job, p) else p;
    assert q in st.fs && st.fs[q] == fs[p];
  }

  /** The signature column of every application whose signature file moves is left behind:
      the slot that holds the same path got there first. */
  lemma SignatureDangles(job: Job, docs: seq<Doc>, sig: string, fs: Disk<Bytes>, k: nat)
    requires Apart(job) && k < |docs| && docs[k].path == sig
    ensures var refs := Refs(docs, sig);
            var st := RunTo(job, refs, fs, |docs| + 1);
            && st.paths[|docs|] == sig
            && (sig in fs ==> (sig !in st.fs <==> MovedAmong(job, refs, fs, |refs|, sig)))
  {
    var refs := Refs(docs, sig);
    RefsAt(docs, sig);
    PathsByStart(job, refs, fs, |docs| + 1, |docs|);
    assert Readable(job, fs, sig) ==> Readable(job, fs, refs[k]);
    RunKeepsDisk(job, refs, fs, |docs| + 1);
    assert FileOk(job, refs, fs, |docs| + 1, RunTo(job, refs, fs, |docs| + 1).fs, sig);
  }

  // ---- One reference, field by field ----

  /** A reference under the old prefix whose file is there is moved if the name under the new
      prefix is free; any other reference is kept, and the disk with it. */
  lemma PlacesInFields(job: Job, fs: Disk<Bytes>, path: string)
    ensures var o, found, dst := Place(job, fs, path), FindFile(fs, path, job.account), job.newPrefix + Basename(path);
            if job.oldPrefix <= path && found != None && dst !in fs
            then o.path == dst && o.fs == fs[dst := fs[found.value]] - {found.value}
            else o.path == path && o.fs == fs
  {
  }

  /** An application's files are in its account's directory under its reference; they move below
      the folder of its company. */
  function JobOf(account: string, reference: string, folder: string): Job {
    JobIn(account, AccountDir(account), "applications", reference, folder)
  }

  function JobIn(account: string, home: string, bucket: string, reference: string, folder: string): Job {
    var below := bucket + ("/" + reference + "/");
    Job(account, home + below, home + (folder + ("/" + below)))
  }

  /** What the theorems ask of the prefixes holds for every application, unless the folder of its
      company is itself called "applications". */
  lemma JobIsApart(account: string, reference: string, folder: string)
    requires NoSlash(folder) && folder != "applications"
    ensures Apart(JobOf(account, reference, folder))
  {
    assert TENANT_ROOT <= AccountDir(account);
    JobInIsApart(account, AccountDir(account), "applications", reference, folder);
  }

  lemma JobInIsApart(account: string, home: string, bucket: string, reference: string, folder: string)
    requires TENANT_ROOT <= home && NoSlash(folder) && NoSlash(bucket) && folder != bucket
    ensures Apart(JobIn(account, home, bucket, reference, folder))
  {
    var more := "/" + reference + "/";
    var old_, new_ := bucket + more, folder + ("/" + (bucket + more));
    assert TENANT_ROOT <= home + old_;
    if home + old_ <= home + new_ {
      PrefixBehind(home, old_, new_);
      FirstPartOf(folder, "/" + (bucket + more), bucket, more);
    }
  }

  lemma PrefixBehind(home: string, a: string, b: string)
    requires home + a <= home + b
    ensures a <= b
  {
    assert (home + a)[|home|..] == a && (home + b)[|home|..] == b;
    assert (home + b)[..|home| + |a|] == home + a;
    assert b[..|a|] == (home + b)[..|home| + |a|][|home|..];
  }

  lemma FirstPartOf(a: string, rest: string, b: string, more: string)
    requires NoSlash(a) && NoSlash(b) && rest != "" && rest[0] == '/' && more != "" && more[0] == '/'
    requires b + more <= a + rest
    ensures a == b
  {
    var s := a + rest;
    assert s[..|b| + |more|] == b + more;
    assert forall k | 0 <= k < |a| :: s[k] == a[k] && s[k] != '/';
    assert forall k | 0 <= k < |b| :: s[k] == (b + more)[k] && s[k] != '/';
    assert s[|a|] == '/' && s[|b|] == (b + more)[|b|] == '/';
    assert |a| == |b|;
    assert a == s[..|a|] && b == s[..|b|];
  }
}
