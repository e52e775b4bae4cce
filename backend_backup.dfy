/** `backup-db.js`: copy the database into the backups directory under a timestamped name, then
    keep only the five newest backups.  The directory is a map from file name to modification
    time; the clock, `toISOString()` and the order `readdirSync` lists names in are parameters. */
module BackendBackup {
  import opened Common
  import opened Sorting

  const KEEP: nat := 5
  const NO_DATABASE: int := 1

  /** `.replace(/[:.]/g, '-')` */
  function Dashed(s: string): (r: string)
    ensures |r| == |s|
    ensures forall i :: 0 <= i < |s| ==> r[i] == if s[i] == ':' || s[i] == '.' then '-' else s[i]
  {
    seq(|s|, i requires 0 <= i < |s| => if s[i] == ':' || s[i] == '.' then '-' else s[i])
  }

  /** `app-${timestamp}.db` */
  function BackupName(iso: string): string {
    "app-" + Dashed(iso) + ".db"
  }

  /** The files that take part in rotation. */
  predicate IsBackupName(n: string) {
    StartsWith(n, "app-") && EndsWith(n, ".db")
  }

  function IsBackupNameFn(): string -> bool { (n: string) => IsBackupName(n) }

  /** The name written for a backup takes part in rotation and holds no ':' between its prefix
      and suffix. */
  lemma BackupNameRotates(iso: string)
    ensures IsBackupName(BackupName(iso))
    ensures var n := BackupName(iso); forall i :: 4 <= i < |n| - 3 ==> n[i] != ':'
  {
    var n := BackupName(iso);
    assert n[..4] == "app-";
    assert n[|n| - 3..] == ".db";
  }

  function Mtime(files: map<string, int>, n: string): int {
    if n in files then files[n] else 0
  }

  function MtimeKey(files: map<string, int>): string -> Key {
    (n: string) => IntKey(Mtime(files, n))
  }

  /** The listed backups, newest modification time first; equal times keep listing order. */
  function NewestFirst(files: map<string, int>, listing: seq<string>): (r: seq<string>)
    ensures multiset(r) == multiset(Filter(listing, IsBackupNameFn()))
    ensures forall n :: n in r <==> n in listing && IsBackupName(n)
    ensures forall i, j :: 0 <= i < j < |r| ==> Mtime(files, r[j]) <= Mtime(files, r[i])
  {
    var r := SortBy(Filter(listing, IsBackupNameFn()), MtimeKey(files), true);
    BackupsListed(listing, r);
    SortedByMtime(files, r);
    r
  }

  /** A permutation of the filtered listing holds exactly the listed backups. */
  lemma BackupsListed(listing: seq<string>, r: seq<string>)
    requires multiset(r) == multiset(Filter(listing, IsBackupNameFn()))
    ensures forall n :: n in r <==> n in listing && IsBackupName(n)
  {
    forall n ensures n in r <==> n in listing && IsBackupName(n) {
      assert n in r <==> n in multiset(r);
      assert n in Filter(listing, IsBackupNameFn()) <==> n in multiset(Filter(listing, IsBackupNameFn()));
    }
  }

  /** Sorted on the descending modification-time key, later names are no newer. */
  lemma SortedByMtime(files: map<string, int>, r: seq<string>)
    requires SortedBy(r, MtimeKey(files), true)
    ensures forall i, j :: 0 <= i < j < |r| ==> Mtime(files, r[j]) <= Mtime(files, r[i])
  {
    forall i, j | 0 <= i < j < |r| ensures Mtime(files, r[j]) <= Mtime(files, r[i]) {
      assert InOrder(MtimeKey(files)(r[i]), MtimeKey(files)(r[j]), true);
    }
  }

  /** `backups.slice(5)`: the names that are deleted. */
  function Surplus(files: map<string, int>, listing: seq<string>): (s: set<string>)
    ensures forall n :: n in s ==> n in listing && IsBackupName(n)
  {
    var b := NewestFirst(files, listing);
    set i | KEEP <= i < |b| :: b[i]
  }

  ghost predicate NoDup(s: seq<string>) {
    forall x :: multiset(s)[x] <= 1
  }

  /** `readdirSync`: every name in the directory once. */
  ghost predicate Enumerates(listing: seq<string>, files: map<string, int>) {
    NoDup(listing) && forall n :: n in listing <==> n in files
  }

  /** The backups directory. */
  class BackupDir {
    var files: map<string, int>

    constructor (initial: map<string, int>)
      ensures files == initial
    {
      files := initial;
    }

    /** `forEach(backup => fs.unlinkSync(backup.path))` over names that are all present. */
    method UnlinkAll(names: seq<string>)
      requires forall i :: 0 <= i < |names| ==> names[i] in files
      requires forall i, j :: 0 <= i < j < |names| ==> names[i] != names[j]
      modifies this
      ensures files == old(files) - set i | 0 <= i < |names| :: names[i]
    {
      var k := 0;
      while k < |names|
        invariant 0 <= k <= |names|
        invariant files == old(files) - set i | 0 <= i < k :: names[i]
      {
        ghost var gone := set i | 0 <= i < k :: names[i];
        assert (set i | 0 <= i < k + 1 :: names[i]) == gone + {names[k]};
        MapMinusOne(old(files), gone, names[k]);
        files := files - {names[k]};
        k := k + 1;
      }
    }

    /** The rotation: every listed backup after the fifth newest is unlinked, and the total
        reported is the number kept. */
    method RotateBackups(listing: seq<string>) returns (total: int)
      requires Enumerates(listing, files)
      modifies this
      ensures files == old(files) - Surplus(old(files), listing)
      ensures total == if |NewestFirst(old(files), listing)| < KEEP then |NewestFirst(old(files), listing)| else KEEP
    {
      var backups := NewestFirst(files, listing);
      ghost var surplus := Surplus(files, listing);
      SurplusIsTail(files, listing);
      if |backups| > KEEP {
        UnlinkAll(backups[KEEP..]);
      } else {
        assert files - surplus == files;
      }
      total := if |backups| < KEEP then |backups| else KEEP;
    }

    /** The whole script: with no database it exits with status 1 and writes nothing; otherwise
        the copy is written with the current time and the directory is rotated. */
    method RunBackup(dbExists: bool, iso: string, now: int, listing: seq<string>) returns (status: int, total: int)
      requires dbExists ==> Enumerates(listing, files[BackupName(iso) := now])
      modifies this
      ensures !dbExists ==> status == NO_DATABASE && files == old(files)
      ensures dbExists ==>
                var copied := old(files)[BackupName(iso) := now];
                && status == 0
                && files == copied - Surplus(copied, listing)
                && total == if |NewestFirst(copied, listing)| < KEEP then |NewestFirst(copied, listing)| else KEEP
    {
      if !dbExists {
        return NO_DATABASE, 0;
      }
      files := files[BackupName(iso) := now];
      total := RotateBackups(listing);
      status := 0;
    }
  }

  /** The deleted names are the listing's backups after the fifth newest, each once. */
  lemma SurplusIsTail(files: map<string, int>, listing: seq<string>)
    requires Enumerates(listing, files)
    ensures var b := NewestFirst(files, listing);
            && (|b| <= KEEP ==> Surplus(files, listing) == {})
            && (|b| > KEEP ==>
                  && (forall i :: 0 <= i < |b[KEEP..]| ==> b[KEEP..][i] in files)
                  && (forall i, j :: 0 <= i < j < |b[KEEP..]| ==> b[KEEP..][i] != b[KEEP..][j])
                  && Surplus(files, listing) == set i | 0 <= i < |b[KEEP..]| :: b[KEEP..][i])
  {
    var b := NewestFirst(files, listing);
    if |b| > KEEP {
      NewestFirstNoDup(files, listing);
      TailDistinct(b, KEEP);
      TailPresent(b, KEEP, files);
      TailSet(b, KEEP);
    }
  }

  lemma TailSet(b: seq<string>, k: nat)
    requires k <= |b|
    ensures (set i | k <= i < |b| :: b[i]) == set i | 0 <= i < |b[k..]| :: b[k..][i]
  {
    var t := b[k..];
    var l := set i | k <= i < |b| :: b[i];
    var r := set i | 0 <= i < |t| :: t[i];
    forall x | x in l ensures x in r {
      var j :| k <= j < |b| && b[j] == x;
      assert t[j - k] == x;
    }
    forall x | x in r ensures x in l {
      var j :| 0 <= j < |t| && t[j] == x;
      assert b[j + k] == x;
    }
  }

  lemma TailDistinct(b: seq<string>, k: nat)
    requires k <= |b| && NoDup(b)
    ensures forall i, j :: 0 <= i < j < |b[k..]| ==> b[k..][i] != b[k..][j]
  {
    forall i, j | 0 <= i < j < |b[k..]| ensures b[k..][i] != b[k..][j] {
      NoDupDistinct(b, k + i, k + j);
    }
  }

  lemma TailPresent(b: seq<string>, k: nat, files: map<string, int>)
    requires k <= |b| && forall n :: n in b ==> n in files
    ensures forall i :: 0 <= i < |b[k..]| ==> b[k..][i] in files
  {
    forall i | 0 <= i < |b[k..]| ensures b[k..][i] in files {
      assert b[k..][i] == b[k + i];
    }
  }

  lemma MapMinusOne(m: map<string, int>, a: set<string>, x: string)
    ensures (m - a) - {x} == m - (a + {x})
  {
  }

  /** Files that are not backups are never deleted. */
  lemma OthersUntouched(files: map<string, int>, listing: seq<string>, n: string)
    requires n in files && !IsBackupName(n)
    ensures n in files - Surplus(files, listing)
  {
  }

  /** Every backup that is kept is at least as new as every backup that is deleted. */
  lemma KeptAreNewest(files: map<string, int>, listing: seq<string>, k: string, d: string)
    requires k in listing && IsBackupName(k) && k !in Surplus(files, listing)
    requires d in Surplus(files, listing)
    ensures Mtime(files, d) <= Mtime(files, k)
  {
    var b := NewestFirst(files, listing);
    var a :| 0 <= a < |b| && b[a] == k;
    var j :| KEEP <= j < |b| && b[j] == d;
  }

  /** Sorting and filtering a list without repeats gives a list without repeats. */
  lemma NewestFirstNoDup(files: map<string, int>, listing: seq<string>)
    requires NoDup(listing)
    ensures NoDup(NewestFirst(files, listing))
  {
    var f := Filter(listing, IsBackupNameFn());
    forall x ensures multiset(f)[x] <= 1 {
      assert multiset(f)[x] == if IsBackupName(x) then multiset(listing)[x] else 0;
    }
  }

  /** Two positions of a list without repeats hold different names. */
  lemma NoDupDistinct(s: seq<string>, i: int, j: int)
    requires NoDup(s) && 0 <= i < j < |s|
    ensures s[i] != s[j]
  {
    assert s == s[..j] + s[j..];
    assert s[i] in s[..j];
    assert s[j] in s[j..];
    assert multiset(s) == multiset(s[..j]) + multiset(s[j..]);
    assert multiset(s[..j])[s[i]] >= 1;
    assert multiset(s[j..])[s[j]] >= 1;
    assert multiset(s)[s[i]] <= 1;
    if s[i] == s[j] {
      assert false;
    }
  }

  /** With a listing that names each file once, the five newest backups (or all, when there are
      fewer) are kept, so exactly that many remain. */
  lemma NewestFiveKept(files: map<string, int>, listing: seq<string>, i: int)
    requires Enumerates(listing, files)
    requires 0 <= i < |NewestFirst(files, listing)| && i < KEEP
    ensures NewestFirst(files, listing)[i] in files - Surplus(files, listing)
  {
    var b := NewestFirst(files, listing);
    NewestFirstNoDup(files, listing);
    forall j | KEEP <= j < |b| ensures b[j] != b[i] {
      NoDupDistinct(b, i, j);
    }
  }

  /** The backup just written, newer than every file already there, is never rotated away. */
  lemma FreshBackupKept(files: map<string, int>, iso: string, now: int, listing: seq<string>)
    requires forall n :: n in files ==> files[n] < now
    requires Enumerates(listing, files[BackupName(iso) := now])
    ensures BackupName(iso) !in Surplus(files[BackupName(iso) := now], listing)
  {
    var copied := files[BackupName(iso) := now];
    var name := BackupName(iso);
    var b := NewestFirst(copied, listing);
    NewestFirstNoDup(copied, listing);
    forall j | KEEP <= j < |b| ensures b[j] != name {
      NoDupDistinct(b, 0, j);
    }
  }
}
