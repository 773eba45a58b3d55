/** The Android app's logcat saving: the guard that starts saving once, and
    the retention rule that trims a device's saved logs before a new one is
    started. Log names end in a fixed-width timestamp (yyyyMMdd-HHmmss.SSS),
    so for one app and device their lexicographic order is their age. The
    log directory is its list of names; `exec` and the listing's failures
    are parameters. */
module DebugUtils {

  /** `MAX_LOG_COUNT`. */
  const MaxLogCount: nat := 10

  /** `getLogPrefix`: "<appName>-<deviceId>-logcat". */
  function LogPrefix(appName: string, deviceId: string): string
  {
    appName + "-" + deviceId + "-logcat"
  }

  /** The new log's path: "<prefix>-<startTime>.log" in the log directory. */
  function LogFile(dirPath: string, appName: string, deviceId: string, startTime: string): string
  {
    dirPath + "/" + LogPrefix(appName, deviceId) + "-" + startTime + ".log"
  }

  predicate StartsWith(s: string, prefix: string)
  {
    |prefix| <= |s| && s[..|prefix|] == prefix
  }

  /** The listing's filter: the names that start with the prefix, in
      listing order. */
  function LogFiles(names: seq<string>, prefix: string): (r: seq<string>)
    ensures forall n :: n in r <==> n in names && StartsWith(n, prefix)
    ensures |r| <= |names|
  {
    if names == [] then []
    else (if StartsWith(names[0], prefix) then [names[0]] else []) + LogFiles(names[1..], prefix)
  }

  /** `String.compareTo(a, b) <= 0`: the character-by-character order, a
      proper prefix first. */
  predicate LexLe(a: string, b: string)
  {
    if |a| == 0 then true
    else if |b| == 0 then false
    else if a[0] != b[0] then a[0] < b[0]
    else LexLe(a[1..], b[1..])
  }

  lemma {:induction false} LexTotal(a: string, b: string)
    ensures LexLe(a, b) || LexLe(b, a)
  {
    if |a| > 0 && |b| > 0 && a[0] == b[0] {
      LexTotal(a[1..], b[1..]);
    }
  }

  lemma {:induction false} LexTrans(a: string, b: string, c: string)
    requires LexLe(a, b) && LexLe(b, c)
    ensures LexLe(a, c)
  {
    if |a| > 0 && |b| > 0 && |c| > 0 && a[0] == b[0] && b[0] == c[0] {
      LexTrans(a[1..], b[1..], c[1..]);
    }
  }

  lemma {:induction false} LexAntisym(a: string, b: string)
    requires LexLe(a, b) && LexLe(b, a)
    ensures a == b
  {
    if |a| > 0 && |b| > 0 {
      LexAntisym(a[1..], b[1..]);
      assert a == [a[0]] + a[1..];
      assert b == [b[0]] + b[1..];
    }
  }

  ghost predicate SortedAsc(s: seq<string>)
  {
    forall i, j :: 0 <= i < j < |s| ==> LexLe(s[i], s[j])
  }

  function Insert(x: string, s: seq<string>): (r: seq<string>)
    ensures multiset(r) == multiset(s) + multiset{x}
  {
    if s == [] || LexLe(x, s[0]) then [x] + s
    else
      assert s == [s[0]] + s[1..];
      [s[0]] + Insert(x, s[1..])
  }

  lemma {:induction false} InsertSorted(x: string, s: seq<string>)
    requires SortedAsc(s)
    ensures SortedAsc(Insert(x, s))
  {
    if s == [] {
    } else if LexLe(x, s[0]) {
      forall j | 0 < j < |s| ensures LexLe(x, s[j]) {
        LexTrans(x, s[0], s[j]);
      }
    } else {
      LexTotal(x, s[0]);
      var rest := Insert(x, s[1..]);
      InsertSorted(x, s[1..]);
      forall j | 0 <= j < |rest| ensures LexLe(s[0], rest[j]) {
        assert rest[j] in multiset(rest);
        if rest[j] != x {
          assert rest[j] in multiset(s[1..]);
          var h :| 0 <= h < |s[1..]| && s[1..][h] == rest[j];
          assert s[h + 1] == rest[j];
        }
      }
    }
  }

  /** `Collections.sort`: a permutation, ascending. */
  function Sort(s: seq<string>): (r: seq<string>)
    ensures multiset(r) == multiset(s)
    ensures |r| == |s|
  {
    if s == [] then []
    else
      assert s == [s[0]] + s[1..];
      Insert(s[0], Sort(s[1..]))
  }

  lemma {:induction false} SortSorted(s: seq<string>)
    ensures SortedAsc(Sort(s))
  {
    if s != [] {
      SortSorted(s[1..]);
      InsertSorted(s[0], Sort(s[1..]));
    }
  }

  /** `Collections.reverse`. */
  function Reverse(s: seq<string>): (r: seq<string>)
    ensures |r| == |s| && multiset(r) == multiset(s)
    ensures forall i :: 0 <= i < |s| ==> r[i] == s[|s| - 1 - i]
  {
    if s == [] then []
    else
      assert s == [s[0]] + s[1..];
      Reverse(s[1..]) + [s[0]]
  }

  /** How many logs are deleted: the surplus over one less than the
      maximum, so that with the new log there are `MaxLogCount`. */
  function Surplus(logs: seq<string>): nat
    requires |logs| >= MaxLogCount
  {
    |logs| - MaxLogCount + 1
  }

  /** `deleteOldLogs` as written: the first `Surplus` of the logs sorted
      and then reversed, that is, the greatest names. */
  function DeletedAsWritten(logs: seq<string>): seq<string>
  {
    if |logs| >= MaxLogCount then Reverse(Sort(logs))[..Surplus(logs)] else []
  }

  function KeptAsWritten(logs: seq<string>): seq<string>
  {
    if |logs| >= MaxLogCount then Reverse(Sort(logs))[Surplus(logs)..] else logs
  }

  /** The retention rule as intended: the first `Surplus` of the logs in
      ascending order, that is, the oldest. */
  function DeletedOldest(logs: seq<string>): seq<string>
  {
    if |logs| >= MaxLogCount then Sort(logs)[..Surplus(logs)] else []
  }

  function KeptNewest(logs: seq<string>): seq<string>
  {
    if |logs| >= MaxLogCount then Sort(logs)[Surplus(logs)..] else logs
  }

  ghost predicate SortedDesc(s: seq<string>)
  {
    forall i, j :: 0 <= i < j < |s| ==> LexLe(s[j], s[i])
  }

  lemma ReverseDescends(s: seq<string>)
    requires SortedAsc(s)
    ensures SortedDesc(Reverse(s))
  {
    var r := Reverse(s);
    forall i, j | 0 <= i < j < |r| ensures LexLe(r[j], r[i]) {
      assert r[i] == s[|s| - 1 - i] && r[j] == s[|s| - 1 - j];
    }
  }

  /** Cutting a sequence in two keeps its elements. */
  lemma SplitKeeps(s: seq<string>, m: nat)
    requires m <= |s|
    ensures multiset(s[..m]) + multiset(s[m..]) == multiset(s)
  {
    assert s == s[..m] + s[m..];
  }

  lemma AscendingSplit(s: seq<string>, m: nat)
    requires SortedAsc(s) && m <= |s|
    ensures forall d, k :: d in s[..m] && k in s[m..] ==> LexLe(d, k)
  {
    forall d, k | d in s[..m] && k in s[m..] ensures LexLe(d, k) {
      var i :| 0 <= i < m && s[..m][i] == d;
      var j :| 0 <= j < |s| - m && s[m..][j] == k;
      assert s[i] == d && s[m + j] == k;
    }
  }

  lemma DescendingSplit(s: seq<string>, m: nat)
    requires SortedDesc(s) && m <= |s|
    ensures forall d, k :: d in s[..m] && k in s[m..] ==> LexLe(k, d)
  {
    forall d, k | d in s[..m] && k in s[m..] ensures LexLe(k, d) {
      var i :| 0 <= i < m && s[..m][i] == d;
      var j :| 0 <= j < |s| - m && s[m..][j] == k;
      assert s[i] == d && s[m + j] == k;
    }
  }

  /** As written: below the maximum nothing is deleted; at or above it,
      exactly the surplus is, and every deleted name is at least every kept
      one. */
  lemma AsWrittenDeletesGreatest(logs: seq<string>)
    ensures |logs| < MaxLogCount ==> DeletedAsWritten(logs) == []
    ensures |logs| >= MaxLogCount ==> |DeletedAsWritten(logs)| == |logs| - MaxLogCount + 1
    ensures |logs| >= MaxLogCount ==> |KeptAsWritten(logs)| == MaxLogCount - 1
    ensures multiset(DeletedAsWritten(logs)) + multiset(KeptAsWritten(logs)) == multiset(logs)
    ensures forall d, k :: d in DeletedAsWritten(logs) && k in KeptAsWritten(logs) ==> LexLe(k, d)
  {
    if |logs| >= MaxLogCount {
      var r := Reverse(Sort(logs));
      var m := Surplus(logs);
      SortSorted(logs);
      ReverseDescends(Sort(logs));
      SplitKeeps(r, m);
      DescendingSplit(r, m);
    }
  }

  /** As intended: below the maximum nothing is deleted; at or above it,
      exactly the surplus is, and every deleted name is at most every kept
      one. */
  lemma OldestDeleted(logs: seq<string>)
    ensures |logs| < MaxLogCount ==> DeletedOldest(logs) == []
    ensures |logs| >= MaxLogCount ==> |DeletedOldest(logs)| == |logs| - MaxLogCount + 1
    ensures |logs| >= MaxLogCount ==> |KeptNewest(logs)| == MaxLogCount - 1
    ensures multiset(DeletedOldest(logs)) + multiset(KeptNewest(logs)) == multiset(logs)
    ensures forall d, k :: d in DeletedOldest(logs) && k in KeptNewest(logs) ==> LexLe(d, k)
  {
    if |logs| >= MaxLogCount {
      var sorted := Sort(logs);
      var m := Surplus(logs);
      SortSorted(logs);
      SplitKeeps(sorted, m);
      AscendingSplit(sorted, m);
    }
  }

  /** In ascending order, the greatest name comes last. */
  lemma GreatestLast(sorted: seq<string>, newest: string)
    requires SortedAsc(sorted)
    requires newest in sorted && forall x :: x in sorted ==> LexLe(x, newest)
    ensures sorted[|sorted| - 1] == newest
  {
    var n := |sorted|;
    var p :| 0 <= p < n && sorted[p] == newest;
    if p < n - 1 {
      assert LexLe(sorted[p], sorted[n - 1]);
    }
    LexAntisym(sorted[n - 1], newest);
  }

  lemma SortedGreatestLast(logs: seq<string>, newest: string)
    requires logs != []
    requires newest in logs && forall x :: x in logs ==> LexLe(x, newest)
    ensures Sort(logs)[|logs| - 1] == newest
  {
    var sorted := Sort(logs);
    SortSorted(logs);
    assert newest in multiset(sorted);
    forall x | x in sorted ensures LexLe(x, newest) {
      assert x in multiset(logs);
    }
    GreatestLast(sorted, newest);
  }

  /** The discrepancy: from a full directory the code as written deletes
      the newest log, the greatest name, which the intended rule keeps. */
  lemma AsWrittenDeletesNewest(logs: seq<string>, newest: string)
    requires |logs| >= MaxLogCount
    requires newest in logs && forall x :: x in logs ==> LexLe(x, newest)
    ensures newest in DeletedAsWritten(logs)
    ensures newest in KeptNewest(logs)
  {
    var sorted := Sort(logs);
    var n := |logs|;
    var m := Surplus(logs);
    SortedGreatestLast(logs, newest);
    var r := Reverse(sorted);
    assert r[0] == sorted[n - 1];
    assert DeletedAsWritten(logs) == r[..m];
    assert r[..m][0] == newest;
    assert KeptNewest(logs) == sorted[m..];
    assert sorted[m..][n - 1 - m] == newest;
  }

  /** The name without `name`: `File.delete`. */
  function Without(names: seq<string>, name: string): (r: seq<string>)
    ensures forall n :: n in r <==> n in names && n != name
  {
    if names == [] then []
    else (if names[0] == name then [] else [names[0]]) + Without(names[1..], name)
  }

  /** One `delete()` of the rotation loop: a deletable file leaves the
      listing, an undeletable one stays, and nothing else moves. */
  lemma DeleteStep(files: seq<string>, before: seq<string>, done: seq<string>, name: string,
                   undeletable: set<string>, next: seq<string>)
    requires forall f :: f in files <==> f in before && (f !in done || f in undeletable)
    requires next == if name in undeletable then files else Without(files, name)
    ensures forall f :: f in next <==> f in before && (f !in done + [name] || f in undeletable)
  {
    forall f
      ensures f in done + [name] <==> f in done || f == name
    {
    }
  }

  class LogSaver {
    /** `isSavingLogs`. */
    var isSavingLogs: bool
    /** The names in the log directory, in listing order. */
    var files: seq<string>
    /** The commands run through `exec`, in order. */
    var commands: seq<string>

    constructor (files: seq<string>)
      ensures !isSavingLogs && this.files == files && commands == []
    {
      isSavingLogs := false;
      this.files := files;
      commands := [];
    }

    /** `deleteOldLogs` as written: a failed listing deletes nothing;
        otherwise the surplus that sorting and reversing puts first, the
        newest of this app and device's logs, is deleted, except the files
        in `undeletable`, whose `File.delete()` answers false and which
        stay; every other file stays too. */
    method DeleteOldLogs(appName: string, deviceId: string, listingFails: bool, undeletable: set<string>)
      modifies this
      ensures isSavingLogs == old(isSavingLogs) && commands == old(commands)
      ensures listingFails ==> files == old(files)
      ensures !listingFails ==>
        forall f :: f in files <==>
          f in old(files) && (f !in DeletedAsWritten(LogFiles(old(files), LogPrefix(appName, deviceId))) || f in undeletable)
    {
      if listingFails {
        return;
      }
      var logs := LogFiles(files, LogPrefix(appName, deviceId));
      DeleteEach(DeletedAsWritten(logs), undeletable);
    }

    /** The `for` loop of `deleteOldLogs`: `delete()` on each doomed name in
        turn; a name in `undeletable` answers false and stays. */
    method DeleteEach(doomed: seq<string>, undeletable: set<string>)
      modifies this
      ensures isSavingLogs == old(isSavingLogs) && commands == old(commands)
      ensures forall f :: f in files <==> f in old(files) && (f !in doomed || f in undeletable)
    {
      ghost var before := files;
      var i := 0;
      while i < |doomed|
        invariant 0 <= i <= |doomed|
        invariant forall f :: f in files <==> f in before && (f !in doomed[..i] || f in undeletable)
        invariant isSavingLogs == old(isSavingLogs) && commands == old(commands)
      {
        ghost var prev := files;
        if doomed[i] !in undeletable {
          files := Without(files, doomed[i]);
        }
        DeleteStep(prev, before, doomed[..i], doomed[i], undeletable, files);
        assert doomed[..i + 1] == doomed[..i] + [doomed[i]];
        i := i + 1;
      }
      assert doomed[..i] == doomed;
    }

    /** `startSavingLogs`: nothing happens when logs are already being saved
        or storage permission is missing; otherwise old logs are trimmed, the
        log buffer is cleared and logcat is started on the new file, and the
        flag is set only once both commands have run. */
    method StartSavingLogs(appName: string, deviceId: string, hasPermission: bool, dirPath: string,
                           startTime: string, listingFails: bool, undeletable: set<string>,
                           clearFails: bool, startFails: bool)
      modifies this
      ensures old(isSavingLogs) || !hasPermission ==>
        isSavingLogs == old(isSavingLogs) && files == old(files) && commands == old(commands)
      ensures isSavingLogs <==> old(isSavingLogs) || (hasPermission && !clearFails && !startFails)
      ensures !old(isSavingLogs) && hasPermission ==>
        commands == old(commands) +
          (if clearFails then []
           else if startFails then ["logcat -c"]
           else ["logcat -c", "logcat -v time -f " + LogFile(dirPath, appName, deviceId, startTime)])
      ensures !old(isSavingLogs) && hasPermission && listingFails ==> files == old(files)
      ensures !old(isSavingLogs) && hasPermission && !listingFails ==>
        forall f :: f in files <==>
          f in old(files) && (f !in DeletedAsWritten(LogFiles(old(files), LogPrefix(appName, deviceId))) || f in undeletable)
    {
      if isSavingLogs {
        return;
      }
      if !hasPermission {
        return;
      }
      DeleteOldLogs(appName, deviceId, listingFails, undeletable);
      var logcatFile := LogFile(dirPath, appName, deviceId, startTime);
      if clearFails {
        return;
      }
      commands := commands + ["logcat -c"];
      if startFails {
        return;
      }
      commands := commands + ["logcat -v time -f " + logcatFile];
      isSavingLogs := true;
    }
  }
}
