/**
 * `manage_log_files`: keep the newest `max_files` log files of a directory. The directory
 * listing is given as (name, modification time) pairs; deletions and their log messages are
 * returned rather than performed.
 */
module Retention {
  import opened Text
  import opened Logs

  /** A directory entry and its modification time (only ever compared). */
  datatype LogFile = LogFile(name: string, mtime: real)

  predicate IsLog(f: LogFile) {
    EndsWith(f.name, ".log")
  }

  /** The entries whose names end in ".log", in listing order. */
  function LogFilesOf(listing: seq<LogFile>): (logs: seq<LogFile>)
    ensures forall f :: multiset(logs)[f] == if IsLog(f) then multiset(listing)[f] else 0
  {
    if listing == [] then []
    else
      assert listing == [listing[0]] + listing[1..];
      (if IsLog(listing[0]) then [listing[0]] else []) + LogFilesOf(listing[1..])
  }

  /** The selection is entry by entry: the log files of a concatenated listing are those of
      each part, in listing order. */
  lemma {:induction false} LogFilesOfAppend(a: seq<LogFile>, b: seq<LogFile>)
    ensures LogFilesOf(a + b) == LogFilesOf(a) + LogFilesOf(b)
  {
    if a == [] {
      assert a + b == b;
    } else {
      assert (a + b)[1..] == a[1..] + b;
      LogFilesOfAppend(a[1..], b);
    }
  }

  ghost predicate SortedByMtime(s: seq<LogFile>) {
    forall i, j :: 0 <= i < j < |s| ==> s[i].mtime <= s[j].mtime
  }

  lemma ConsSorted(x: LogFile, s: seq<LogFile>)
    requires SortedByMtime(s)
    requires forall y :: y in s ==> x.mtime <= y.mtime
    ensures SortedByMtime([x] + s)
  {
    var r := [x] + s;
    forall i, j | 0 <= i < j < |r| ensures r[i].mtime <= r[j].mtime {
      assert r[j] == s[j - 1];
      if i > 0 {
        assert r[i] == s[i - 1];
      }
    }
  }

  /** The head of a list ordered by mtime is the oldest entry. */
  lemma {:induction false} SortedHeadOldest(s: seq<LogFile>)
    requires SortedByMtime(s)
    ensures forall y :: y in s ==> s[0].mtime <= y.mtime
  {
    forall y | y in s ensures s[0].mtime <= y.mtime {
      var k :| 0 <= k < |s| && s[k] == y;
    }
  }

  /** A lower bound on every entry of `u` and on `f` bounds every entry of a rearrangement of both. */
  lemma {:induction false} BoundedByMultiset(m: real, t: seq<LogFile>, u: seq<LogFile>, f: LogFile)
    requires multiset(t) == multiset(u) + multiset{f}
    requires m <= f.mtime && forall y :: y in u ==> m <= y.mtime
    ensures forall y :: y in t ==> m <= y.mtime
  {
    forall y | y in t ensures m <= y.mtime {
      assert multiset(t)[y] > 0;
      if y != f {
        assert y in multiset(u);
      }
    }
  }

  /** Inserts `f` before the first entry that is not older than it. */
  function InsertByMtime(f: LogFile, s: seq<LogFile>): (r: seq<LogFile>)
    requires SortedByMtime(s)
    ensures SortedByMtime(r)
    ensures multiset(r) == multiset(s) + multiset{f}
  {
    if s == [] || f.mtime <= s[0].mtime then
      SortedHeadOldest(s);
      ConsSorted(f, s);
      [f] + s
    else
      var t := InsertByMtime(f, s[1..]);
      assert s == [s[0]] + s[1..];
      SortedHeadOldest(s);
      BoundedByMultiset(s[0].mtime, t, s[1..], f);
      ConsSorted(s[0], t);
      [s[0]] + t
  }

  /** The ascending order of `sorted(files, key=os.path.getmtime)`, stable like Python's sort. */
  function SortByMtime(s: seq<LogFile>): (r: seq<LogFile>)
    ensures SortedByMtime(r)
    ensures multiset(r) == multiset(s)
  {
    if s == [] then []
    else
      assert s == [s[0]] + s[1..];
      InsertByMtime(s[0], SortByMtime(s[1..]))
  }

  /** The entries of `s` modified at time `t`, in order. */
  function OfMtime(s: seq<LogFile>, t: real): seq<LogFile> {
    if s == [] then []
    else (if s[0].mtime == t then [s[0]] else []) + OfMtime(s[1..], t)
  }

  lemma {:induction false} InsertByMtimeStable(f: LogFile, s: seq<LogFile>, t: real)
    requires SortedByMtime(s)
    ensures OfMtime(InsertByMtime(f, s), t) == (if f.mtime == t then [f] else []) + OfMtime(s, t)
  {
    var r := InsertByMtime(f, s);
    if s == [] || f.mtime <= s[0].mtime {
      assert r == [f] + s;
      assert r[0] == f && r[1..] == s;
    } else {
      var rest := InsertByMtime(f, s[1..]);
      assert r == [s[0]] + rest;
      assert r[0] == s[0] && r[1..] == rest;
      InsertByMtimeStable(f, s[1..], t);
      assert OfMtime(r, t) == (if s[0].mtime == t then [s[0]] else []) + OfMtime(rest, t);
      assert OfMtime(s, t) == (if s[0].mtime == t then [s[0]] else []) + OfMtime(s[1..], t);
      if f.mtime == t {
        assert s[0].mtime != t;
      }
    }
  }

  /** Sorting is stable: entries with equal modification times keep their listing order. */
  lemma {:induction false} SortByMtimeStable(s: seq<LogFile>, t: real)
    ensures OfMtime(SortByMtime(s), t) == OfMtime(s, t)
  {
    if s != [] {
      SortByMtimeStable(s[1..], t);
      InsertByMtimeStable(s[0], SortByMtime(s[1..]), t);
    }
  }

  /** Splitting a sequence sorted by time leaves no later entry in front of an earlier one. */
  lemma SplitSorted(s: seq<LogFile>, n: nat)
    requires SortedByMtime(s) && n <= |s|
    ensures forall d, k :: d in s[..n] && k in s[n..] ==> d.mtime <= k.mtime
  {
    forall d, k | d in s[..n] && k in s[n..] ensures d.mtime <= k.mtime {
      var i :| 0 <= i < n && s[..n][i] == d;
      var j :| 0 <= j < |s| - n && s[n..][j] == k;
      assert s[i] == d && s[n + j] == k;
    }
  }

  /** The retention candidates, oldest first: log files of the listing only, all of them. */
  lemma RetentionCandidates(listing: seq<LogFile>)
    ensures |SortByMtime(LogFilesOf(listing))| == |LogFilesOf(listing)|
    ensures forall f :: f in SortByMtime(LogFilesOf(listing)) ==> f in listing && IsLog(f)
  {
    var logs := LogFilesOf(listing);
    var ordered := SortByMtime(logs);
    assert |multiset(ordered)| == |multiset(logs)|;
    forall f | f in ordered ensures f in listing && IsLog(f) {
      assert multiset(ordered)[f] > 0;
      assert multiset(logs)[f] > 0;
    }
  }

  /**
   * The loop of the retention pass: entries are popped from the front of `ordered` while more
   * than `maxFiles` remain, each deletion logged once. With a negative limit the list runs
   * empty and the next `pop(0)` raises (`failed`). `kept` is the list left in memory.
   */
  method PopOldest(ordered: seq<LogFile>, maxFiles: int)
    returns (removed: seq<LogFile>, kept: seq<LogFile>, logs: seq<LogEntry>, failed: bool)
    ensures removed + kept == ordered
    ensures failed <==> maxFiles < 0
    ensures failed ==> kept == []
    ensures !failed ==> |kept| == if |ordered| <= maxFiles then |ordered| else maxFiles
    ensures |ordered| <= maxFiles ==> removed == []
    ensures |logs| == |removed| && forall e :: e in logs ==> e == OldLogRemoved
  {
    var logFiles := ordered;
    removed, logs, failed := [], [], false;
    while |logFiles| > maxFiles
      invariant removed + logFiles == ordered
      invariant removed == [] || |logFiles| >= maxFiles
      invariant |logs| == |removed| && forall e :: e in logs ==> e == OldLogRemoved
      decreases |logFiles|
    {
      if |logFiles| == 0 {
        failed := true;
        break;
      }
      removed := removed + [logFiles[0]];
      logFiles := logFiles[1..];
      logs := logs + [OldLogRemoved];
    }
    kept := logFiles;
  }

  /**
   * `manage_log_files`: the ".log" entries of the listing, sorted oldest first, lose their
   * oldest members until at most `maxFiles` remain. Only log files are deleted, the survivors are
   * the newest ones, and nothing is deleted when there are at most `maxFiles` of them.
   */
  method ManageLogFiles(listing: seq<LogFile>, maxFiles: int)
    returns (removed: seq<LogFile>, kept: seq<LogFile>, logs: seq<LogEntry>, failed: bool)
    ensures removed + kept == SortByMtime(LogFilesOf(listing))
    ensures forall f :: f in removed ==> f in listing && IsLog(f)
    ensures forall d, k :: d in removed && k in kept ==> d.mtime <= k.mtime
    ensures failed <==> maxFiles < 0
    ensures failed ==> kept == []
    ensures !failed ==> |kept| == if |LogFilesOf(listing)| <= maxFiles then |LogFilesOf(listing)| else maxFiles
    ensures |LogFilesOf(listing)| <= maxFiles ==> removed == []
    ensures |logs| == |removed| && forall e :: e in logs ==> e == OldLogRemoved
  {
    var logFiles := SortByMtime(LogFilesOf(listing));
    RetentionCandidates(listing);
    removed, kept, logs, failed := PopOldest(logFiles, maxFiles);
    assert removed == logFiles[..|removed|] && kept == logFiles[|removed|..];
    SplitSorted(logFiles, |removed|);
    forall f | f in removed ensures f in listing && IsLog(f) {
      assert f in logFiles;
    }
  }
}
