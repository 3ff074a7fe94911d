/**
 * Backup and export naming, backup retention and the backup listing of
 * `ConfigurationService`. The backup directory is the list of its file names, each
 * once; file contents (JSON) are not modelled.
 */
module Configuration {
  import opened Wrappers
  import Text
  import Lists
  import Sorting
  import opened Groups

  /** Backups beyond this many (by name, greatest first) are deleted. */
  const KeptBackups := 10
  const Extension := ".tbg"
  const BackupPrefix := "Backup_"
  const ExportVersion := "1.0"

  /** A local date and time to the second (`DateTime.Now`). */
  datatype DateTime = DateTime(year: nat, month: nat, day: nat, hour: nat, minute: nat, second: nat) {
    predicate Valid() {
      1 <= year <= 9999 && 1 <= month <= 12 && 1 <= day <= 31 && hour < 24 && minute < 60 && second < 60
    }
  }

  /** `a` is an earlier second than `b`. */
  predicate Before(a: DateTime, b: DateTime) {
    a.year < b.year || (a.year == b.year &&
    (a.month < b.month || (a.month == b.month &&
    (a.day < b.day || (a.day == b.day &&
    (a.hour < b.hour || (a.hour == b.hour &&
    (a.minute < b.minute || (a.minute == b.minute && a.second < b.second)))))))))
  }

  function Pow10(w: nat): (p: nat)
    ensures p >= 1
  {
    if w == 0 then 1 else 10 * Pow10(w - 1)
  }

  function DigitChar(d: nat): char
    requires d < 10
  {
    (48 + d) as char
  }

  /** `n` written with exactly `w` decimal digits, zero-padded on the left. */
  function Digits(n: nat, w: nat): (s: string)
    ensures |s| == w
  {
    if w == 0 then "" else Digits(n / 10, w - 1) + [DigitChar(n % 10)]
  }

  /** Zero-padded numbers of one width compare, as strings, as the numbers do. */
  lemma {:induction false} DigitsOrder(a: nat, b: nat, w: nat)
    requires a < Pow10(w) && b < Pow10(w)
    ensures Text.LexLess(Digits(a, w), Digits(b, w)) <==> a < b
    ensures Digits(a, w) == Digits(b, w) <==> a == b
  {
    if w > 0 {
      DigitsOrder(a / 10, b / 10, w - 1);
      var da, db := Digits(a / 10, w - 1), Digits(b / 10, w - 1);
      var ca, cb := [DigitChar(a % 10)], [DigitChar(b % 10)];
      Text.LexLessConcat(da, ca, db, cb);
      assert Text.LexLess(ca, cb) <==> a % 10 < b % 10 by {
        assert ca[1..] == [] && cb[1..] == [];
      }
      assert da + ca == db + cb <==> da == db && ca == cb by {
        if da + ca == db + cb {
          assert da == (da + ca)[..w - 1] && db == (db + cb)[..w - 1];
          assert ca[0] == (da + ca)[w - 1] && cb[0] == (db + cb)[w - 1];
        }
      }
      assert a == 10 * (a / 10) + a % 10 && b == 10 * (b / 10) + b % 10;
    } else {
      assert a == 0 && b == 0;
    }
  }

  /** The `yyyyMMdd_HHmmss` stamp. */
  function Stamp(t: DateTime): (s: string)
    ensures |s| == 15
  {
    Digits(t.year, 4) + (Digits(t.month, 2) + (Digits(t.day, 2)
      + ("_" + (Digits(t.hour, 2) + (Digits(t.minute, 2) + Digits(t.second, 2))))))
  }

  /** One step of the stamp comparison: a leading piece that decides, then the rest. */
  lemma PieceOrder(x1: string, x2: string, y1: string, y2: string, a: int, b: int)
    requires |x1| == |y1|
    requires Text.LexLess(x1, y1) <==> a < b
    requires x1 == y1 <==> a == b
    ensures Text.LexLess(x1 + x2, y1 + y2) <==> a < b || (a == b && Text.LexLess(x2, y2))
    ensures x1 + x2 == y1 + y2 <==> a == b && x2 == y2
  {
    Text.LexLessConcat(x1, x2, y1, y2);
    if x1 + x2 == y1 + y2 {
      assert x1 == (x1 + x2)[..|x1|] && y1 == (y1 + y2)[..|y1|];
      assert x2 == (x1 + x2)[|x1|..] && y2 == (y1 + y2)[|y1|..];
    }
  }

  /** Stamps compare as the times do, and two times share a stamp only when they are equal. */
  lemma StampOrder(a: DateTime, b: DateTime)
    requires a.Valid() && b.Valid()
    ensures Text.LexLess(Stamp(a), Stamp(b)) <==> Before(a, b)
    ensures Stamp(a) == Stamp(b) <==> a == b
  {
    DigitsOrder(a.year, b.year, 4);
    DigitsOrder(a.month, b.month, 2);
    DigitsOrder(a.day, b.day, 2);
    DigitsOrder(a.hour, b.hour, 2);
    DigitsOrder(a.minute, b.minute, 2);
    DigitsOrder(a.second, b.second, 2);
    var s5 := Digits(a.second, 2);
    var t5 := Digits(b.second, 2);
    var s4 := Digits(a.minute, 2) + s5;
    var t4 := Digits(b.minute, 2) + t5;
    PieceOrder(Digits(a.minute, 2), s5, Digits(b.minute, 2), t5, a.minute, b.minute);
    var s3 := Digits(a.hour, 2) + s4;
    var t3 := Digits(b.hour, 2) + t4;
    PieceOrder(Digits(a.hour, 2), s4, Digits(b.hour, 2), t4, a.hour, b.hour);
    Text.LexLessSamePrefix("_", s3, t3);
    var s2 := Digits(a.day, 2) + ("_" + s3);
    var t2 := Digits(b.day, 2) + ("_" + t3);
    PieceOrder(Digits(a.day, 2), "_" + s3, Digits(b.day, 2), "_" + t3, a.day, b.day);
    var s1 := Digits(a.month, 2) + s2;
    var t1 := Digits(b.month, 2) + t2;
    PieceOrder(Digits(a.month, 2), s2, Digits(b.month, 2), t2, a.month, b.month);
    PieceOrder(Digits(a.year, 4), s1, Digits(b.year, 4), t1, a.year, b.year);
  }

  /** `Backup_yyyyMMdd_HHmmss.tbg`. */
  function BackupName(t: DateTime): (name: string)
    ensures |name| == 26
  {
    BackupPrefix + (Stamp(t) + Extension)
  }

  /**
   * Backup names sort chronologically, and a backup taken in the same second as
   * another gets the same name (and so overwrites it).
   */
  lemma BackupNameOrder(a: DateTime, b: DateTime)
    requires a.Valid() && b.Valid()
    ensures Text.LexLess(BackupName(a), BackupName(b)) <==> Before(a, b)
    ensures BackupName(a) == BackupName(b) <==> a == b
  {
    StampOrder(a, b);
    Text.LexLessSamePrefix(BackupPrefix, Stamp(a) + Extension, Stamp(b) + Extension);
    Text.LexLessConcat(Stamp(a), Extension, Stamp(b), Extension);
    Text.LexLessIrreflexive(Extension);
    if BackupName(a) == BackupName(b) {
      assert Stamp(a) == BackupName(a)[7..22] && Stamp(b) == BackupName(b)[7..22];
    }
  }

  /** `<group name>_yyyyMMdd_HHmmss.tbg`, the name an export is offered under. */
  function ExportFileName(groupName: string, t: DateTime): (name: string)
    ensures |name| == |groupName| + 20
  {
    groupName + "_" + Stamp(t) + Extension
  }

  /** Exports of one group sort chronologically by their offered names. */
  lemma ExportNameOrder(groupName: string, a: DateTime, b: DateTime)
    requires a.Valid() && b.Valid()
    ensures Text.LexLess(ExportFileName(groupName, a), ExportFileName(groupName, b)) <==> Before(a, b)
  {
    StampOrder(a, b);
    assert ExportFileName(groupName, a) == (groupName + "_") + (Stamp(a) + Extension);
    assert ExportFileName(groupName, b) == (groupName + "_") + (Stamp(b) + Extension);
    Text.LexLessSamePrefix(groupName + "_", Stamp(a) + Extension, Stamp(b) + Extension);
    Text.LexLessConcat(Stamp(a), Extension, Stamp(b), Extension);
    Text.LexLessIrreflexive(Extension);
  }

  /** What an export or backup file holds: a format version, a date and the groups. */
  datatype ExportData = ExportData(version: string, exportDate: DateTime, groups: seq<TaskbarGroup>)

  /** `ExportSingleGroup`'s payload: exactly the one group, format version "1.0". */
  function ExportPayload(g: TaskbarGroup, t: DateTime): (d: ExportData)
    ensures d.version == "1.0" && |d.groups| == 1 && d.groups[0] == g && d.exportDate == t
  {
    ExportData(ExportVersion, t, [g])
  }

  /** The `Backup_*.tbg` pattern; Windows matches file name patterns ignoring case. */
  predicate IsBackupFile(name: string): (b: bool)
    ensures b ==> |name| >= |"backup_"| + |".tbg"|
    ensures b ==> Text.EndsWith(Text.Lower(name), ".tbg")
  {
    var l := Text.Lower(name);
    |l| >= 11 && Text.StartsWith(l, "backup_") && Text.EndsWith(l, ".tbg")
  }

  lemma BackupNameMatches(t: DateTime)
    ensures IsBackupFile(BackupName(t))
  {
    var stamp := Stamp(t);
    Text.LowerConcat(BackupPrefix, stamp + Extension);
    Text.LowerConcat(stamp, Extension);
    assert Text.Lower(BackupPrefix) == "backup_";
    assert Text.Lower(Extension) == ".tbg";
  }

  /** The names in `files` that match `Backup_*.tbg`, in the same order. */
  function Backups(files: seq<string>): (r: seq<string>)
    ensures forall x :: x in r <==> x in files && IsBackupFile(x)
    ensures Lists.NoDuplicates(files) ==> Lists.NoDuplicates(r)
  {
    if files == [] then []
    else
      var rest := Backups(files[1..]);
      if IsBackupFile(files[0]) then
        assert Lists.NoDuplicates(files) ==> files[0] !in files[1..];
        [files[0]] + rest
      else rest
  }

  /** `files` without the names in `gone`, order kept. */
  function Without(files: seq<string>, gone: set<string>): (r: seq<string>)
    ensures forall x :: x in r <==> x in files && x !in gone
    ensures Lists.NoDuplicates(files) ==> Lists.NoDuplicates(r)
  {
    if files == [] then []
    else
      var rest := Without(files[1..], gone);
      if files[0] in gone then rest
      else
        assert Lists.NoDuplicates(files) ==> files[0] !in files[1..];
        [files[0]] + rest
  }

  /** In a list without duplicates, `Remove(x)` is dropping `x`. */
  lemma {:induction false} RemoveFirstIsWithout(files: seq<string>, gone: set<string>, x: string)
    requires Lists.NoDuplicates(files)
    ensures Lists.RemoveFirst(Without(files, gone), x) == Without(files, gone + {x})
  {
    if files != [] {
      var head, tail := files[0], files[1..];
      assert files == [head] + tail;
      assert head !in tail;
      RemoveFirstIsWithout(tail, gone, x);
      if head !in gone {
        Lists.RemoveFirstCons(head, Without(tail, gone), x);
        if head == x {
          WithoutIgnoresAbsent(tail, gone, x);
        }
      }
    }
  }

  lemma {:induction false} WithoutIgnoresAbsent(files: seq<string>, gone: set<string>, x: string)
    requires x !in files
    ensures Without(files, gone) == Without(files, gone + {x})
  {
    if files != [] {
      WithoutIgnoresAbsent(files[1..], gone, x);
    }
  }

  /** The directory after writing `name`: a new name is added, an existing one overwritten. */
  function Written(files: seq<string>, name: string): (r: seq<string>)
    ensures forall x :: x in r <==> x in files || x == name
    ensures Lists.NoDuplicates(files) ==> Lists.NoDuplicates(r)
  {
    if name in files then files else files + [name]
  }

  /** Sorting the backups keeps their number and their names. */
  lemma SortedBackups(files: seq<string>)
    ensures var ordered := Sorting.SortDesc(Backups(files));
      |ordered| == |Backups(files)| && forall x | x in ordered :: x in files && IsBackupFile(x)
  {
    var backups := Backups(files);
    var ordered := Sorting.SortDesc(backups);
    assert |ordered| == |multiset(ordered)| == |multiset(backups)| == |backups|;
    forall x | x in ordered ensures x in files && IsBackupFile(x) {
      assert x in multiset(ordered);
      assert x in backups;
    }
  }

  /** The backups `CreateBackup` deletes: all but the ten greatest names. */
  function Surplus(files: seq<string>): (r: seq<string>)
    ensures forall x | x in r :: x in files && IsBackupFile(x)
    ensures var n := |Backups(files)|; |r| == if n <= KeptBackups then 0 else n - KeptBackups
  {
    SortedBackups(files);
    var ordered := Sorting.SortDesc(Backups(files));
    if |ordered| <= KeptBackups then [] else ordered[KeptBackups..]
  }

  /** The directory after `CreateBackup` with backup name `name`. */
  function AfterBackup(files: seq<string>, name: string): (r: seq<string>)
    ensures forall x | x in r :: x in files || x == name
    ensures forall x | (x in files || x == name) && !IsBackupFile(x) :: x in r
  {
    var written := Written(files, name);
    Without(written, Lists.Elements(Surplus(written)))
  }

  /** The ten greatest backups are kept, the rest are the surplus. */
  function Kept(files: seq<string>): (r: seq<string>)
    ensures forall x | x in r :: x in files && IsBackupFile(x)
    ensures var n := |Backups(files)|; |r| == if n < KeptBackups then n else KeptBackups
  {
    SortedBackups(files);
    var ordered := Sorting.SortDesc(Backups(files));
    if |ordered| <= KeptBackups then ordered else ordered[..KeptBackups]
  }

  lemma SurplusShape(files: seq<string>)
    requires Lists.NoDuplicates(files)
    ensures Sorting.SortDesc(Backups(files)) == Kept(files) + Surplus(files)
    ensures Lists.NoDuplicates(Kept(files) + Surplus(files))
    ensures forall x | x in Kept(files) + Surplus(files) :: x in files && IsBackupFile(x)
  {
    var backups := Backups(files);
    var ordered := Sorting.SortDesc(backups);
    assert ordered == Kept(files) + Surplus(files);
    Sorting.SortDescNoDuplicates(backups);
    forall x | x in ordered ensures x in files && IsBackupFile(x) {
      assert x in multiset(ordered);
      assert x in backups;
    }
  }

  /** Retention deletes only backups: every other file stays, and nothing is added but the new name. */
  lemma RetentionKeepsOthers(files: seq<string>, name: string)
    requires Lists.NoDuplicates(files)
    ensures forall x | x in Written(files, name) && !IsBackupFile(x) :: x in AfterBackup(files, name)
    ensures forall x | x in AfterBackup(files, name) :: x in files || x == name
  {
    SurplusShape(Written(files, name));
  }

  /** Afterwards exactly the ten greatest backups remain (all of them when there are fewer). */
  lemma RetentionKeepsGreatest(files: seq<string>, name: string)
    requires Lists.NoDuplicates(files)
    ensures forall x :: x in Backups(AfterBackup(files, name)) <==> x in Kept(Written(files, name))
    ensures var n := |Backups(Written(files, name))|;
      |Backups(AfterBackup(files, name))| == if n < KeptBackups then n else KeptBackups
  {
    var written := Written(files, name);
    SurplusShape(written);
    forall x ensures x in Backups(AfterBackup(files, name)) <==> x in Kept(written) {
      RemainingBackup(written, x);
    }
    SameElementsSameLength(Backups(AfterBackup(files, name)), Kept(written));
    var backups := Backups(written);
    var ordered := Sorting.SortDesc(backups);
    assert |ordered| == |multiset(ordered)| == |multiset(backups)| == |backups|;
    assert |Kept(written)| == if |backups| < KeptBackups then |backups| else KeptBackups;
  }

  /** One name: it is a remaining backup exactly when it is among the kept ones. */
  lemma RemainingBackup(written: seq<string>, x: string)
    requires Lists.NoDuplicates(written)
    requires Sorting.SortDesc(Backups(written)) == Kept(written) + Surplus(written)
    requires Lists.NoDuplicates(Kept(written) + Surplus(written))
    requires forall y | y in Kept(written) + Surplus(written) :: y in written && IsBackupFile(y)
    ensures x in Backups(Without(written, Lists.Elements(Surplus(written)))) <==> x in Kept(written)
  {
    var kept, surplus := Kept(written), Surplus(written);
    if x in kept {
      assert x in kept + surplus;
      assert x !in surplus;
    }
    if x in Backups(Without(written, Lists.Elements(surplus))) {
      assert x in multiset(Backups(written));
      assert x in Sorting.SortDesc(Backups(written));
    }
  }

  /** Every backup that remains has a greater name than every file that was deleted. */
  lemma RetentionOrder(files: seq<string>, name: string)
    requires Lists.NoDuplicates(files)
    ensures forall x, y | x in Backups(AfterBackup(files, name)) && y in Written(files, name) && y !in AfterBackup(files, name) ::
      Text.LexLess(y, x)
  {
    var written := Written(files, name);
    SurplusShape(written);
    RetentionKeepsGreatest(files, name);
    var kept, surplus := Kept(written), Surplus(written);
    forall x, y | x in Backups(AfterBackup(files, name)) && y in written && y !in AfterBackup(files, name)
      ensures Text.LexLess(y, x)
    {
      assert x in kept && y in surplus;
      Sorting.SplitOrder(kept, surplus, x, y);
    }
  }

  /** Two lists without duplicates that hold the same elements have the same length. */
  lemma SameElementsSameLength(a: seq<string>, b: seq<string>)
    requires Lists.NoDuplicates(a) && Lists.NoDuplicates(b)
    requires forall x :: x in a <==> x in b
    ensures |a| == |b|
  {
    assert Lists.Elements(a) == Lists.Elements(b);
    Lists.DistinctCount(a);
    Lists.DistinctCount(b);
  }

  /**
   * `GetAvailableBackups`: the matching names, greatest first; an empty list when the
   * directory is missing or cannot be listed (`None`).
   */
  function AvailableBackups(listing: Option<seq<string>>): (r: seq<string>)
    ensures listing.None? ==> r == []
    ensures listing.Some? ==> forall x :: x in r <==> x in listing.value && IsBackupFile(x)
    ensures Sorting.SortedDesc(r)
  {
    match listing
    case None => []
    case Some(files) =>
      var r := Sorting.SortDesc(Backups(files));
      assert forall x :: x in r <==> x in multiset(Backups(files));
      r
  }

  /**
   * When every file is a backup made by this application, the first available backup
   * is the most recent one.
   */
  lemma LatestBackupFirst(names: seq<string>, times: seq<DateTime>)
    requires |names| == |times| > 0
    requires forall k | 0 <= k < |times| :: times[k].Valid() && names[k] == BackupName(times[k])
    ensures |AvailableBackups(Some(names))| > 0
    ensures exists k | 0 <= k < |times| ::
      AvailableBackups(Some(names))[0] == names[k] && forall m | 0 <= m < |times| :: !Before(times[k], times[m])
  {
    var r := AvailableBackups(Some(names));
    BackupNameMatches(times[0]);
    assert names[0] in names;
    assert r[0] in r;
    var k :| 0 <= k < |times| && r[0] == names[k];
    forall m | 0 <= m < |times| ensures !Before(times[k], times[m]) {
      BackupNameMatches(times[m]);
      assert names[m] in names;
      FirstBackupLatest(r, times[k], times[m]);
    }
  }

  lemma FirstBackupLatest(r: seq<string>, a: DateTime, b: DateTime)
    requires Sorting.SortedDesc(r) && a.Valid() && b.Valid()
    requires |r| > 0 && r[0] == BackupName(a) && BackupName(b) in r
    ensures !Before(a, b)
  {
    Sorting.FirstIsGreatest(r, BackupName(b));
    BackupNameOrder(a, b);
  }

  /** The backup directory, as the names of its files in enumeration order. */
  class BackupDirectory {
    var files: seq<string>

    ghost predicate Valid()
      reads this
    {
      Lists.NoDuplicates(files)
    }

    constructor (existing: seq<string>)
      requires Lists.NoDuplicates(existing)
      ensures Valid() && files == existing
    {
      files := existing;
    }

    /**
     * `CreateBackup` at local time `now`: writes `Backup_<stamp>.tbg`, then deletes, one
     * by one, every backup after the ten greatest names.
     */
    method CreateBackup(now: DateTime)
      requires Valid()
      modifies this
      ensures Valid()
      ensures files == AfterBackup(old(files), BackupName(now))
    {
      var name := BackupName(now);
      if name !in files {
        files := files + [name];
      }
      assert files == Written(old(files), name);
      DeleteOldBackups();
    }

    /** Deletes, one by one, every backup after the ten greatest names. */
    method DeleteOldBackups()
      requires Valid()
      modifies this
      ensures Valid()
      ensures files == Without(old(files), Lists.Elements(Surplus(old(files))))
    {
      ghost var start := files;
      var ordered := Sorting.SortDesc(Backups(files));
      WithoutNothing(start);
      if |ordered| > KeptBackups {
        var i := KeptBackups;
        assert Lists.Elements(ordered[KeptBackups..i]) == {};
        while i < |ordered|
          invariant KeptBackups <= i <= |ordered|
          invariant files == Without(start, Lists.Elements(ordered[KeptBackups..i]))
        {
          DeleteStep(start, ordered[KeptBackups..i], ordered[i]);
          files := Lists.RemoveFirst(files, ordered[i]);
          assert ordered[KeptBackups..i + 1] == ordered[KeptBackups..i] + [ordered[i]];
          i := i + 1;
        }
        assert ordered[KeptBackups..i] == Surplus(start);
      } else {
        assert Lists.Elements(Surplus(start)) == {};
      }
    }
  }

  /** Deleting one more file extends the set of deleted names by it. */
  lemma DeleteStep(files: seq<string>, deleted: seq<string>, x: string)
    requires Lists.NoDuplicates(files)
    ensures Lists.RemoveFirst(Without(files, Lists.Elements(deleted)), x) == Without(files, Lists.Elements(deleted + [x]))
  {
    assert Lists.Elements(deleted + [x]) == Lists.Elements(deleted) + {x};
    RemoveFirstIsWithout(files, Lists.Elements(deleted), x);
  }

  lemma {:induction false} WithoutNothing(files: seq<string>)
    ensures Without(files, {}) == files
  {
    if files != [] {
      WithoutNothing(files[1..]);
    }
  }
}
