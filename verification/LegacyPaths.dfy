/** Finding and moving files in the relocation script
    (scripts/relocate_userdata_layout.py). A disk is a map from paths under the project root
    to contents; paths are in normal form and directories are not modelled. */
module LegacyPaths {
  import opened Common

  type Disk<!Bytes> = map<string, Bytes>

  function LStrip(s: string): string {
    if s != "" && s[0] == '/' then LStrip(s[1..]) else s
  }

  predicate EndsWith(s: string, t: string) {
    |t| <= |s| && s[|s| - |t|..] == t
  }

  function Basename(s: string): string {
    if s == "" || s[|s| - 1] == '/' then "" else Basename(s[..|s| - 1]) + [s[|s| - 1]]
  }

  const TENANT_ROOT := "data/userdata/"

  function AccountDir(account: string): string {
    TENANT_ROOT + "account-" + account + "/"
  }

  /** Whether a path is also looked for inside the account's directory. */
  predicate PreTenant(rel: string) {
    "data/" <= rel && !(TENANT_ROOT <= rel)
  }

  function LegacyCandidates(stored: string, account: string): seq<string> {
    var rel := LStrip(stored);
    if PreTenant(rel) then [rel, AccountDir(account) + rel[5..]] else [rel]
  }

  /** The first candidate that is a file. */
  function FindFile<B>(fs: Disk<B>, stored: string, account: string): (r: Option<string>)
    ensures r.Some? ==> r.value in fs && r.value in LegacyCandidates(stored, account)
    ensures r.None? ==> forall c | c in LegacyCandidates(stored, account) :: c !in fs
  {
    var rel := LStrip(stored);
    if rel in fs then Some(rel)
    else if PreTenant(rel) && AccountDir(account) + rel[5..] in fs then Some(AccountDir(account) + rel[5..])
    else None
  }

  /** What a move that is not refused leaves. */
  function Moved<B>(fs: Disk<B>, src: string, dst: string): Disk<B>
    requires src in fs
  {
    (fs - {src})[dst := fs[src]]
  }

  /** The disk a script run works on. */
  class FileStore<B> {
    var fs: Disk<B>

    constructor (fs: Disk<B>)
      ensures this.fs == fs
    {
      this.fs := fs;
    }

    /** A name that is in use is never written over; a dry run only says what it would do. */
    method Move(src: string, dst: string, apply: bool) returns (ok: bool)
      requires src in fs
      modifies this
      ensures ok == (dst !in old(fs))
      ensures fs == if ok && apply then Moved(old(fs), src, dst) else old(fs)
    {
      if dst in fs {
        return false;
      }
      if apply {
        var content := fs[src];
        fs := fs - {src};
        fs := fs[dst := content];
      }
      return true;
    }
  }

  ghost function Holders<B>(fs: Disk<B>, b: B): set<string> {
    set p | p in fs && fs[p] == b
  }

  /** How many files hold these bytes. */
  ghost function Copies<B>(fs: Disk<B>, b: B): nat {
    |Holders(fs, b)|
  }

  lemma MovedHolders<B>(fs: Disk<B>, src: string, dst: string, b: B)
    requires src in fs && dst !in fs
    ensures Holders(Moved(fs, src, dst), b) == Holders(fs, b) - {src} + if fs[src] == b then {dst} else {}
  {
    forall p ensures p in Holders(Moved(fs, src, dst), b) <==>
                     (p in Holders(fs, b) && p != src) || (p == dst && fs[src] == b) {
    }
  }

  /** A move onto a free name keeps every content as often as it was there. */
  lemma MoveConserves<B>(fs: Disk<B>, src: string, dst: string, b: B)
    requires src in fs && dst !in fs
    ensures Copies(Moved(fs, src, dst), b) == Copies(fs, b)
  {
    MovedHolders(fs, src, dst, b);
    var before := Holders(fs, b);
    assert dst !in before;
    assert src in before <==> fs[src] == b;
    if fs[src] == b {
      assert |before - {src}| == |before| - 1;
    } else {
      assert before - {src} + {} == before;
    }
  }

  // ---- Facts about the strings ----

  lemma PrefixShifts(a: string, s: string, t: string)
    requires Contains(s, t)
    ensures Contains(a + s, t)
  {
    var k :| 0 <= k <= |s| && OccursAt(s, t, k);
    assert (a + s)[|a| + k..|a| + k + |t|] == s[k..k + |t|];
    assert OccursAt(a + s, t, |a| + k);
  }

  lemma {:induction false} LStripKeeps(s: string, t: string)
    requires t != "" && t[0] != '/' && Contains(s, t)
    ensures Contains(LStrip(s), t)
  {
    if s != "" && s[0] == '/' {
      var k :| 0 <= k <= |s| && OccursAt(s, t, k);
      assert k != 0 by {
        assert s[k..k + |t|][0] == t[0];
      }
      assert s[1..][k - 1..k - 1 + |t|] == s[k..k + |t|];
      assert OccursAt(s[1..], t, k - 1);
      LStripKeeps(s[1..], t);
    }
  }

  lemma {:induction false} LStripIsSuffix(s: string)
    ensures |LStrip(s)| <= |s| && s[|s| - |LStrip(s)|..] == LStrip(s)
  {
    if s != "" && s[0] == '/' {
      LStripIsSuffix(s[1..]);
    }
  }

  lemma TailKeeps(rel: string, t: string)
    requires t != "" && t[0] !in "data/" && "data/" <= rel && Contains(rel, t)
    ensures Contains(rel[5..], t)
  {
    var k :| 0 <= k <= |rel| && OccursAt(rel, t, k);
    assert rel[k] == t[0] by {
      assert rel[k..k + |t|][0] == t[0];
    }
    assert k >= 5 by {
      assert forall j | 0 <= j < 5 :: rel[j] == "data/"[j];
    }
    assert rel[5..][k - 5..k - 5 + |t|] == rel[k..k + |t|];
    assert OccursAt(rel[5..], t, k - 5);
  }

  /** Every place a stored path is looked for still names the legacy bucket. */
  lemma CandidatesKeep(stored: string, account: string, t: string)
    requires t != "" && t[0] !in "data/" && Contains(stored, t)
    ensures forall c | c in LegacyCandidates(stored, account) :: Contains(c, t)
  {
    assert '/' in "data/" by { assert "data/"[4] == '/'; }
    LStripKeeps(stored, t);
    var rel := LStrip(stored);
    if PreTenant(rel) {
      TailKeeps(rel, t);
      PrefixShifts(AccountDir(account), rel[5..], t);
    }
  }

  predicate NoSlash(s: string) {
    forall k | 0 <= k < |s| :: s[k] != '/'
  }

  lemma {:induction false} BasenameHasNoSlash(s: string)
    ensures NoSlash(Basename(s))
  {
    if s != "" && s[|s| - 1] != '/' {
      BasenameHasNoSlash(s[..|s| - 1]);
    }
  }

  /** Cutting a path at a slash: the bucket name with its slash lies on one side. */
  lemma BucketOnOneSide(x: string, y: string, seg: string)
    requires NoSlash(seg) && Contains(x + "/" + y, seg + "/")
    ensures EndsWith(x, seg) || Contains(x, seg + "/") || Contains(y, seg + "/")
  {
    var s, t := x + "/" + y, seg + "/";
    var k :| 0 <= k <= |s| && OccursAt(s, t, k);
    assert s[k + |seg|] == '/' by {
      assert s[k..k + |t|][|seg|] == t[|seg|];
    }
    if k + |t| <= |x| {
      assert x[k..k + |t|] == s[k..k + |t|];
      assert OccursAt(x, t, k);
    } else if k > |x| {
      assert y[k - |x| - 1..k - |x| - 1 + |t|] == s[k..k + |t|];
      assert OccursAt(y, t, k - |x| - 1);
    } else {
      assert k + |seg| == |x| by {
        assert s[|x|] == '/';
        forall m | k <= m < k + |seg| ensures s[m] != '/' {
          assert s[k..k + |t|][m - k] == t[m - k] == seg[m - k];
        }
      }
      assert x[k..] == s[k..k + |t|][..|seg|] == t[..|seg|] == seg;
    }
  }

  // ---- Paths, character by character ----

  /** All leading slashes go, and nothing else. */
  lemma {:induction false} LStripIs(s: string) returns (slashes: string)
    ensures s == slashes + LStrip(s) && (LStrip(s) == "" || LStrip(s)[0] != '/')
    ensures forall i | 0 <= i < |slashes| :: slashes[i] == '/'
  {
    if s != "" && s[0] == '/' {
      var more := LStripIs(s[1..]);
      slashes := ['/'] + more;
      assert s == ['/'] + s[1..];
    } else {
      slashes := "";
    }
  }

  /** The part behind the last slash. */
  lemma {:induction false} BasenameIs(s: string) returns (front: string)
    ensures s == front + Basename(s) && NoSlash(Basename(s))
    ensures front == "" || front[|front| - 1] == '/'
  {
    if s == "" || s[|s| - 1] == '/' {
      front := s;
    } else {
      var rest := s[..|s| - 1];
      front := BasenameIs(rest);
      assert s == rest + [s[|s| - 1]];
      assert s == front + (Basename(rest) + [s[|s| - 1]]);
    }
  }

  /** A stored path is looked for under the project root; and if it starts with "data/" but not
      with "data/userdata/", then also in the account's own directory, without "data/". The first
      of the two that is a file is found. */
  lemma FindsTheFirst<B>(fs: Disk<B>, slashes: string, rel: string, account: string)
    requires (forall i | 0 <= i < |slashes| :: slashes[i] == '/') && (rel == "" || rel[0] != '/')
    ensures var found := FindFile(fs, slashes + rel, account);
            var moved := "data/" <= rel && !("data/userdata/" <= rel);
            var inside := "data/userdata/account-" + account + "/" + if moved then rel[5..] else "";
            && (rel in fs ==> found == Some(rel))
            && (rel !in fs && moved && inside in fs ==> found == Some(inside))
            && (rel !in fs && !(moved && inside in fs) ==> found == None)
  {
    StripsSlashes(slashes, rel);
    if "data/" <= rel && !("data/userdata/" <= rel) {
      var inside := "data/userdata/account-" + account + "/" + rel[5..];
      assert TENANT_ROOT + "account-" == "data/userdata/account-";
      assert inside == AccountDir(account) + rel[5..];
    }
  }

  lemma {:induction false} StripsSlashes(slashes: string, rel: string)
    requires (forall i | 0 <= i < |slashes| :: slashes[i] == '/') && (rel == "" || rel[0] != '/')
    ensures LStrip(slashes + rel) == rel
  {
    if slashes == "" {
      assert slashes + rel == rel;
    } else {
      assert (slashes + rel)[1..] == slashes[1..] + rel;
      StripsSlashes(slashes[1..], rel);
    }
  }

  /** A move takes the file from its old name to the new one, bytes and all. */
  lemma MovesInFields<B>(fs: Disk<B>, src: string, dst: string, p: string)
    requires src in fs && dst !in fs
    ensures var fs' := Moved(fs, src, dst);
            && src !in fs' && dst in fs' && fs'[dst] == fs[src]
            && (p != src && p != dst ==> (p in fs' <==> p in fs) && (p in fs ==> fs'[p] == fs[p]))
  {
  }
}
