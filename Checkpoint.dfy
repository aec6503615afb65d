/** The result loop of `main` in scripts/newsScrapper.py: it consumes the
    scraping tasks' outcomes in the order they complete, gathers their
    records and decides which snapshots of the gathered records to write.
    The clock is read once per outcome and the filesystem is the set of
    paths that exist, so the loop is a deterministic state machine whose
    output is the log of snapshot writes. */
module Checkpoint {
  import opened Wrappers
  import opened Text
  import opened Calendar
  import opened CalendarRows

  /** A reading of `datetime.now()`, to the second. */
  datatype Clock = Clock(date: Date, hour: nat, minute: nat, second: nat)

  predicate ValidClock(t: Clock)
  {
    Valid(t.date) && t.hour < 24 && t.minute < 60 && t.second < 60
  }

  /** `strftime("%Y%m%d_%H")`: the hour a reading falls in. */
  function HourBucket(t: Clock): string
  {
    Pad4(t.date.year) + Pad2(t.date.month) + Pad2(t.date.day) + "_" + Pad2(t.hour)
  }

  /** `strftime("%Y%m%d_%H%M%S")`. */
  function SecondStamp(t: Clock): string
  {
    HourBucket(t) + Pad2(t.minute) + Pad2(t.second)
  }

  const OutputPath := "forexfactory_calendar_full.csv"

  /** The files the loop writes the gathered records to. */
  datatype Snapshot =
    | Temp                      // rewritten after every counted date
    | Numbered(count: nat)      // after every fifth counted date
    | Hourly(bucket: string)    // first counted date of an hour
    | ErrorBackup(stamp: string)  // a task raised while records were held
    | Final                     // after the loop

  function PathOf(s: Snapshot): string
  {
    match s
    case Temp => "temp_" + OutputPath
    case Numbered(n) => "backup_" + Decimal(n) + "_" + OutputPath
    case Hourly(b) => "hourly_backup_" + b + "_" + OutputPath
    case ErrorBackup(st) => "error_backup_" + st + "_" + OutputPath
    case Final => OutputPath
  }

  /** One `to_csv` call: the file and the records written to it. */
  datatype Write = Write(snapshot: Snapshot, rows: seq<Record>)

  /** One future as `as_completed` hands it over, with the clock reading the
      loop takes while handling it. `date` is the key the task scraped. */
  datatype Completion = Completion(date: string, result: TaskResult, now: Clock)

  /** The loop's variables: `all_data`, `completed_dates`, the paths that
      exist on disk, and the writes made so far. */
  datatype State = State(allData: seq<Record>, completed: nat, files: set<string>, log: seq<Write>)

  /** `if data:` after `future.result()` returned: a non-empty list. */
  predicate Counted(c: Completion)
  {
    c.result.Returned? && c.result.records != []
  }

  /** The records an outcome adds to `all_data`. */
  function Gain(c: Completion): seq<Record>
  {
    if c.result.Returned? then c.result.records else []
  }

  /** The paths of the files written in `ws`. */
  function PathsOf(ws: seq<Write>): set<string>
  {
    if ws == [] then {} else PathsOf(ws[..|ws| - 1]) + {PathOf(ws[|ws| - 1].snapshot)}
  }

  /** A path is among those of `ws` exactly when some write in `ws` goes there. */
  lemma {:induction false} PathsOfMember(ws: seq<Write>, p: string)
    ensures p in PathsOf(ws) <==> exists i :: 0 <= i < |ws| && PathOf(ws[i].snapshot) == p
  {
    if ws != [] {
      var prefix := ws[..|ws| - 1];
      PathsOfMember(prefix, p);
      if exists i :: 0 <= i < |prefix| && PathOf(prefix[i].snapshot) == p {
        var i :| 0 <= i < |prefix| && PathOf(prefix[i].snapshot) == p;
        assert ws[i] == prefix[i];
      }
      if exists i :: 0 <= i < |ws| && PathOf(ws[i].snapshot) == p {
        var i :| 0 <= i < |ws| && PathOf(ws[i].snapshot) == p;
        if i < |prefix| {
          assert prefix[i] == ws[i];
        }
      }
    }
  }

  /** `df.to_csv(path)` for the snapshot's path: the file exists afterwards
      and holds the records gathered so far. */
  function Save(s: State, snapshot: Snapshot): State
  {
    State(s.allData, s.completed, s.files + {PathOf(snapshot)}, s.log + [Write(snapshot, s.allData)])
  }

  /** `all_data.extend(data)` and `completed_dates += 1`. */
  function Count(s: State, data: seq<Record>): State
  {
    State(s.allData + data, s.completed + 1, s.files, s.log)
  }

  /** A non-empty list counted, the temp file rewritten and, when the count
      is a multiple of 5, the numbered backup written. */
  function Backed(s: State, data: seq<Record>): State
  {
    var t := Save(Count(s, data), Temp);
    if t.completed % 5 == 0 then Save(t, Numbered(t.completed)) else t
  }

  /** One outcome in state `s`. A non-empty list is added to `all_data` and
      counted; then the temp file is rewritten, a numbered backup is written
      when the count is a multiple of 5, and the hourly backup of the
      current hour when its file is not on disk. A task that raised while
      records were held leaves an error backup stamped with the current
      second. Anything else changes nothing. */
  function Step(s: State, c: Completion): State
  {
    if Counted(c) then
      var u, bucket := Backed(s, c.result.records), HourBucket(c.now);
      if PathOf(Hourly(bucket)) in u.files then u else Save(u, Hourly(bucket))
    else if c.result.Raised? && s.allData != [] then Save(s, ErrorBackup(SecondStamp(c.now)))
    else s
  }

  /** The state after the loop has handled `cs`, starting with the paths
      `existing` on disk. */
  function Run(existing: set<string>, cs: seq<Completion>): State
  {
    if cs == [] then State([], 0, existing, [])
    else Step(Run(existing, cs[..|cs| - 1]), cs[|cs| - 1])
  }

  /** The loop of `main` from `all_data = []` to the final `to_csv`. */
  method ProcessResults(completions: seq<Completion>, existing: set<string>)
    returns (allData: seq<Record>, completed: nat, files: set<string>, log: seq<Write>)
    ensures var s := Run(existing, completions);
      && allData == s.allData && completed == s.completed
      && files == s.files + {OutputPath} && log == s.log + [Write(Final, allData)]
  {
    allData := [];
    completed := 0;
    files := existing;
    log := [];
    for i := 0 to |completions|
      invariant State(allData, completed, files, log) == Run(existing, completions[..i])
    {
      var c := completions[i];
      assert completions[..i + 1][..i] == completions[..i] && completions[..i + 1][i] == c;
      match c.result
      case Returned(data) =>
        if data != [] {
          allData := allData + data;
          completed := completed + 1;
          var tempPath := PathOf(Temp);
          log := log + [Write(Temp, allData)];
          files := files + {tempPath};
          if completed % 5 == 0 {
            var backupPath := PathOf(Numbered(completed));
            log := log + [Write(Numbered(completed), allData)];
            files := files + {backupPath};
          }
          var currentHour := HourBucket(c.now);
          var hourlyPath := PathOf(Hourly(currentHour));
          if hourlyPath !in files {
            log := log + [Write(Hourly(currentHour), allData)];
            files := files + {hourlyPath};
          }
        }
      case Raised(_) =>
        if allData != [] {
          var errorBackupPath := PathOf(ErrorBackup(SecondStamp(c.now)));
          log := log + [Write(ErrorBackup(SecondStamp(c.now)), allData)];
          files := files + {errorBackupPath};
        }
    }
    assert completions[..|completions|] == completions;
    log := log + [Write(Final, allData)];
    files := files + {OutputPath};
  }

  /** What `future.result()` gives for a task whose browser produced `page`. */
  function Outcome(page: Page): TaskResult
  {
    match page
    case Rendered(rows) => Returned(Records(rows, None))
    case LoadError(message) => Raised(message)
  }

  /** The outcomes in the order they complete: the `i`-th to complete is the
      task for `dates[order[i]]`, handled at `clock[i]`. */
  function Completions(dates: seq<string>, load: string -> Page, order: seq<nat>, clock: seq<Clock>): seq<Completion>
    requires |clock| == |order|
    requires forall i :: 0 <= i < |order| ==> order[i] < |dates|
  {
    seq(|order|, i requires 0 <= i < |order| =>
      Completion(dates[order[i]], Outcome(load(CalendarUrl(dates[order[i]]))), clock[i]))
  }

  /** The tasks of `executor.submit(scrape_forex_factory, date)`, run to
      completion and listed in the order they complete. */
  method RunTasks(dates: seq<string>, load: string -> Page, order: seq<nat>, clock: seq<Clock>)
    returns (completions: seq<Completion>)
    requires |clock| == |order|
    requires forall i :: 0 <= i < |order| ==> order[i] < |dates|
    ensures completions == Completions(dates, load, order, clock)
  {
    ghost var all := Completions(dates, load, order, clock);
    completions := [];
    for i := 0 to |order|
      invariant completions == all[..i]
    {
      var date := dates[order[i]];
      var result := ScrapeForexFactory(date, load);
      assert all[..i + 1] == all[..i] + [Completion(date, result, clock[i])];
      completions := completions + [Completion(date, result, clock[i])];
    }
    assert all[..|order|] == all;
  }

  /** `main()`: one task per default date key, their outcomes consumed in
      the order `order`, a permutation of the keys' indices as
      `as_completed` yields every submitted future once. */
  method ScrapeAll(load: string -> Page, order: seq<nat>, clock: seq<Clock>, existing: set<string>)
    returns (allData: seq<Record>, completed: nat, files: set<string>, log: seq<Write>)
    requires |order| == DefaultDays && |clock| == DefaultDays
    requires forall i :: 0 <= i < |order| ==> order[i] < DefaultDays
    requires forall i, j :: 0 <= i < j < |order| ==> order[i] != order[j]
    ensures var dates := Keys(DateRange(Date(2017, 4, 20), Date(2019, 11, 11)));
      |dates| == DefaultDays &&
      var s := Run(existing, Completions(dates, load, order, clock));
      && allData == s.allData && completed == s.completed && completed <= DefaultDays
      && files == s.files + {OutputPath} && log == s.log + [Write(Final, allData)]
  {
    var dates := DefaultDates();
    var completions := RunTasks(dates, load, order, clock);
    allData, completed, files, log := ProcessResults(completions, existing);
    RunTotals(existing, completions);
  }

  /** The first character tells the kinds of snapshot apart. */
  function Head(s: Snapshot): char
  {
    match s
    case Temp => 't'
    case Numbered(_) => 'b'
    case Hourly(_) => 'h'
    case ErrorBackup(_) => 'e'
    case Final => 'f'
  }

  lemma PathHead(s: Snapshot)
    ensures |PathOf(s)| > 0 && PathOf(s)[0] == Head(s)
  {
  }

  /** Two strings in the same frame are equal. */
  lemma MiddleUnique(p: string, x: string, y: string, q: string)
    requires p + x + "_" + q == p + y + "_" + q
    ensures x == y
  {
    assert |x| == |y|;
    assert x == (p + x + "_" + q)[|p|..|p| + |x|];
    assert y == (p + y + "_" + q)[|p|..|p| + |y|];
  }

  lemma NumberedPathInjective(n: nat, m: nat)
    requires PathOf(Numbered(n)) == PathOf(Numbered(m))
    ensures n == m
  {
    MiddleUnique("backup_", Decimal(n), Decimal(m), OutputPath);
  }

  /** Distinct snapshots go to distinct paths: no write overwrites the file
      of another kind or of another count, hour or second. */
  lemma PathOfInjective(a: Snapshot, b: Snapshot)
    requires PathOf(a) == PathOf(b)
    ensures a == b
  {
    PathHead(a);
    PathHead(b);
    assert Head(a) == Head(b);
    match a
    case Temp =>
    case Final =>
    case Numbered(n) =>
      NumberedPathInjective(n, b.count);
    case Hourly(x) =>
      MiddleUnique("hourly_backup_", x, b.bucket, OutputPath);
    case ErrorBackup(x) =>
      MiddleUnique("error_backup_", x, b.stamp, OutputPath);
  }

  /** Two readings share an hourly bucket exactly when they fall on the same
      day and in the same hour. */
  lemma HourBucketSame(a: Clock, b: Clock)
    requires ValidClock(a) && ValidClock(b)
    ensures HourBucket(a) == HourBucket(b) <==> a.date == b.date && a.hour == b.hour
  {
    if HourBucket(a) == HourBucket(b) {
      var x, y := HourBucket(a), HourBucket(b);
      assert x[0..4] == Pad4(a.date.year) && y[0..4] == Pad4(b.date.year);
      assert x[4..6] == Pad2(a.date.month) && y[4..6] == Pad2(b.date.month);
      assert x[6..8] == Pad2(a.date.day) && y[6..8] == Pad2(b.date.day);
      assert x[9..11] == Pad2(a.hour) && y[9..11] == Pad2(b.hour);
    }
  }

  /** Two readings share a `%Y%m%d_%H%M%S` stamp exactly when they are the
      same reading, so error backups of different seconds never share a
      path. */
  lemma SecondStampSame(a: Clock, b: Clock)
    requires ValidClock(a) && ValidClock(b)
    ensures SecondStamp(a) == SecondStamp(b) <==> a == b
  {
    if SecondStamp(a) == SecondStamp(b) {
      var x, y := SecondStamp(a), SecondStamp(b);
      assert x[..11] == HourBucket(a) && y[..11] == HourBucket(b);
      HourBucketSame(a, b);
      assert x[11..13] == Pad2(a.minute) && y[11..13] == Pad2(b.minute);
      assert x[13..] == Pad2(a.second) && y[13..] == Pad2(b.second);
    }
  }

  /** The snapshot of each write, in log order. */
  function Snapshots(log: seq<Write>): seq<Snapshot>
  {
    seq(|log|, i requires 0 <= i < |log| => log[i].snapshot)
  }

  lemma SnapshotsAppend(a: seq<Write>, b: seq<Write>)
    ensures Snapshots(a + b) == Snapshots(a) + Snapshots(b)
  {
    assert forall i :: 0 <= i < |a + b| ==> Snapshots(a + b)[i] == (Snapshots(a) + Snapshots(b))[i];
  }

  lemma SaveSnapshots(s: State, snapshot: Snapshot)
    ensures Snapshots(Save(s, snapshot).log) == Snapshots(s.log) + [snapshot]
  {
    SnapshotsAppend(s.log, [Write(snapshot, s.allData)]);
  }

  /** The snapshots one outcome adds to the log, in order, read off the
      state before it: the hourly backup is written when its file was not
      on disk before the outcome (the temp and numbered writes that come
      first never go to an hourly path). `StepSnapshots` shows that `Step`
      appends exactly these. */
  function Added(s: State, c: Completion): seq<Snapshot>
  {
    if Counted(c) then
      var n, bucket := s.completed + 1, HourBucket(c.now);
      [Temp] + (if n % 5 == 0 then [Numbered(n)] else [])
      + (if PathOf(Hourly(bucket)) in s.files then [] else [Hourly(bucket)])
    else if c.result.Raised? && s.allData != [] then [ErrorBackup(SecondStamp(c.now))]
    else []
  }

  lemma StepSnapshots(s: State, c: Completion)
    ensures Snapshots(Step(s, c).log) == Snapshots(s.log) + Added(s, c)
  {
    if Counted(c) {
      var t := Save(Count(s, c.result.records), Temp);
      var u, bucket := Backed(s, c.result.records), HourBucket(c.now);
      SaveSnapshots(Count(s, c.result.records), Temp);
      SaveSnapshots(t, Numbered(t.completed));
      SaveSnapshots(u, Hourly(bucket));
      BackedHourly(s, c.result.records, bucket);
    } else if c.result.Raised? && s.allData != [] {
      SaveSnapshots(s, ErrorBackup(SecondStamp(c.now)));
    }
  }

  /** One outcome keeps the old writes and appends one write per snapshot
      of `Added`, each holding the whole of `all_data` as it stands after the
      outcome. */
  lemma StepWrites(s: State, c: Completion)
    ensures var t := Step(s, c);
      && |t.log| == |s.log| + |Added(s, c)| && t.log[..|s.log|] == s.log
      && forall i :: |s.log| <= i < |t.log| ==> t.log[i] == Write(Added(s, c)[i - |s.log|], t.allData)
  {
    StepSnapshots(s, c);
    if Counted(c) {
      BackedHourly(s, c.result.records, HourBucket(c.now));
    }
  }

  /** The concatenation, in completion order, of the lists the tasks
      returned. */
  function Gathered(cs: seq<Completion>): seq<Record>
  {
    if cs == [] then [] else Gathered(cs[..|cs| - 1]) + Gain(cs[|cs| - 1])
  }

  /** The number of tasks that returned a non-empty list. */
  function Successes(cs: seq<Completion>): nat
  {
    if cs == [] then 0 else Successes(cs[..|cs| - 1]) + (if Counted(cs[|cs| - 1]) then 1 else 0)
  }

  /** One outcome adds its list to `all_data` and counts it when it is
      non-empty. */
  lemma TotalsStep(s: State, c: Completion)
    ensures Step(s, c).allData == s.allData + Gain(c)
    ensures Step(s, c).completed == s.completed + (if Counted(c) then 1 else 0)
    ensures Gain(c) == [] <==> !Counted(c)
  {
  }

  /** The concatenation is empty exactly when no list was counted, and at
      most one list is counted per outcome. */
  lemma {:induction false} GatheredEmpty(cs: seq<Completion>)
    ensures Gathered(cs) == [] <==> Successes(cs) == 0
    ensures Successes(cs) <= |cs|
  {
    if cs != [] {
      GatheredEmpty(cs[..|cs| - 1]);
    }
  }

  lemma {:induction false} RunGathers(existing: set<string>, cs: seq<Completion>)
    ensures Run(existing, cs).allData == Gathered(cs)
  {
    if cs != [] {
      var prefix := cs[..|cs| - 1];
      RunGathers(existing, prefix);
      TotalsStep(Run(existing, prefix), cs[|cs| - 1]);
    }
  }

  lemma {:induction false} RunCounts(existing: set<string>, cs: seq<Completion>)
    ensures Run(existing, cs).completed == Successes(cs)
  {
    if cs != [] {
      var prefix := cs[..|cs| - 1];
      RunCounts(existing, prefix);
      TotalsStep(Run(existing, prefix), cs[|cs| - 1]);
    }
  }

  /** `all_data` is the concatenation of the non-empty lists in completion
      order and `completed_dates` their number; it is empty exactly while
      nothing has been counted. */
  lemma RunTotals(existing: set<string>, cs: seq<Completion>)
    ensures var s := Run(existing, cs);
      && s.allData == Gathered(cs) && s.completed == Successes(cs)
      && s.completed <= |cs| && (s.allData == [] <==> s.completed == 0)
  {
    RunGathers(existing, cs);
    RunCounts(existing, cs);
    GatheredEmpty(cs);
  }

  /** Every snapshot holds a non-empty prefix of `all_data`. */
  predicate PrefixSnapshots(s: State)
  {
    forall i :: 0 <= i < |s.log| ==> s.log[i].rows != [] && s.log[i].rows <= s.allData
  }

  lemma SavePrefix(s: State, snapshot: Snapshot)
    requires PrefixSnapshots(s) && s.allData != []
    ensures PrefixSnapshots(Save(s, snapshot))
  {
    var t := Save(s, snapshot);
    forall i | 0 <= i < |t.log|
      ensures t.log[i].rows != [] && t.log[i].rows <= t.allData
    {
      if i < |s.log| {
        assert t.log[i] == s.log[i];
      }
    }
  }

  lemma CountPrefix(s: State, data: seq<Record>)
    requires PrefixSnapshots(s)
    ensures PrefixSnapshots(Count(s, data))
  {
    assert s.allData <= s.allData + data;
  }

  lemma PrefixStep(s: State, c: Completion)
    requires PrefixSnapshots(s)
    ensures PrefixSnapshots(Step(s, c))
  {
    if Counted(c) {
      var s1 := Count(s, c.result.records);
      var t := Save(s1, Temp);
      CountPrefix(s, c.result.records);
      SavePrefix(s1, Temp);
      SavePrefix(t, Numbered(t.completed));
      SavePrefix(Backed(s, c.result.records), Hourly(HourBucket(c.now)));
    } else if c.result.Raised? && s.allData != [] {
      SavePrefix(s, ErrorBackup(SecondStamp(c.now)));
    }
  }

  /** Every snapshot holds a non-empty prefix of what has been gathered. */
  lemma {:induction false} SnapshotsArePrefixes(existing: set<string>, cs: seq<Completion>)
    ensures PrefixSnapshots(Run(existing, cs))
  {
    if cs != [] {
      SnapshotsArePrefixes(existing, cs[..|cs| - 1]);
      PrefixStep(Run(existing, cs[..|cs| - 1]), cs[|cs| - 1]);
    }
  }

  lemma PathsOfAppend(a: seq<Write>, b: seq<Write>)
    ensures PathsOf(a + b) == PathsOf(a) + PathsOf(b)
  {
    forall p | p in PathsOf(a + b) ensures p in PathsOf(a) + PathsOf(b) {
      PathsOfMember(a + b, p);
      PathsOfMember(a, p);
      PathsOfMember(b, p);
      var i :| 0 <= i < |a + b| && PathOf((a + b)[i].snapshot) == p;
      if i < |a| {
        assert (a + b)[i] == a[i];
      } else {
        assert (a + b)[i] == b[i - |a|];
      }
    }
    forall p | p in PathsOf(a) + PathsOf(b) ensures p in PathsOf(a + b) {
      PathsOfMember(a + b, p);
      PathsOfMember(a, p);
      PathsOfMember(b, p);
      if p in PathsOf(a) {
        var i :| 0 <= i < |a| && PathOf(a[i].snapshot) == p;
        assert (a + b)[i] == a[i];
      } else {
        var i :| 0 <= i < |b| && PathOf(b[i].snapshot) == p;
        assert (a + b)[|a| + i] == b[i];
      }
    }
  }

  lemma SaveFiles(existing: set<string>, s: State, snapshot: Snapshot)
    requires s.files == existing + PathsOf(s.log)
    ensures Save(s, snapshot).files == existing + PathsOf(Save(s, snapshot).log)
  {
    PathsOfAppend(s.log, [Write(snapshot, s.allData)]);
  }

  lemma FilesStep(existing: set<string>, s: State, c: Completion)
    requires s.files == existing + PathsOf(s.log)
    ensures Step(s, c).files == existing + PathsOf(Step(s, c).log)
  {
    if Counted(c) {
      var s1 := Count(s, c.result.records);
      var t := Save(s1, Temp);
      SaveFiles(existing, s1, Temp);
      SaveFiles(existing, t, Numbered(t.completed));
      SaveFiles(existing, Backed(s, c.result.records), Hourly(HourBucket(c.now)));
    } else if c.result.Raised? && s.allData != [] {
      SaveFiles(existing, s, ErrorBackup(SecondStamp(c.now)));
    }
  }

  /** The paths on disk are the ones that existed before and the ones the
      loop wrote. */
  lemma {:induction false} FilesOnDisk(existing: set<string>, cs: seq<Completion>)
    ensures var s := Run(existing, cs); s.files == existing + PathsOf(s.log)
  {
    if cs != [] {
      FilesOnDisk(existing, cs[..|cs| - 1]);
      FilesStep(existing, Run(existing, cs[..|cs| - 1]), cs[|cs| - 1]);
    }
  }

  lemma NumberedAdded(s: State, c: Completion, n: nat)
    ensures multiset(Added(s, c))[Numbered(n)]
      == if Counted(c) && n == s.completed + 1 && n % 5 == 0 then 1 else 0
  {
  }

  /** `backup_{n}_…` is written once when `n` is a multiple of 5 no larger
      than the count, and never otherwise. */
  lemma {:induction false} NumberedBackups(existing: set<string>, cs: seq<Completion>, n: nat)
    ensures var s := Run(existing, cs);
      multiset(Snapshots(s.log))[Numbered(n)] == if 0 < n <= s.completed && n % 5 == 0 then 1 else 0
  {
    if cs != [] {
      var prefix, c := cs[..|cs| - 1], cs[|cs| - 1];
      NumberedBackups(existing, prefix, n);
      var s := Run(existing, prefix);
      StepSnapshots(s, c);
      NumberedAdded(s, c, n);
    }
  }

  /** After twelve counted dates the numbered backups are `backup_5_…` and
      `backup_10_…`, one each. */
  lemma TwelveDates(existing: set<string>, cs: seq<Completion>, n: nat)
    requires Run(existing, cs).completed == 12
    ensures multiset(Snapshots(Run(existing, cs).log))[Numbered(n)] == if n == 5 || n == 10 then 1 else 0
  {
    NumberedBackups(existing, cs, n);
    MultiplesUpToTwelve(n);
  }

  lemma MultiplesUpToTwelve(n: nat)
    ensures (0 < n <= 12 && n % 5 == 0) <==> (n == 5 || n == 10)
  {
  }

  /** The temp file is rewritten once per counted date. */
  lemma {:induction false} TempPerDate(existing: set<string>, cs: seq<Completion>)
    ensures var s := Run(existing, cs); multiset(Snapshots(s.log))[Temp] == s.completed
  {
    if cs != [] {
      var prefix, c := cs[..|cs| - 1], cs[|cs| - 1];
      TempPerDate(existing, prefix);
      var s := Run(existing, prefix);
      StepSnapshots(s, c);
      KindsAdded(s, c);
    }
  }

  /** The rows of the last write to `snapshot` in `log`, if there is one. */
  function Latest(log: seq<Write>, snapshot: Snapshot): Option<seq<Record>>
  {
    if log == [] then None
    else if log[|log| - 1].snapshot == snapshot then Some(log[|log| - 1].rows)
    else Latest(log[..|log| - 1], snapshot)
  }

  lemma LatestSave(s: State, snapshot: Snapshot)
    ensures Latest(Save(s, snapshot).log, Temp) == if snapshot == Temp then Some(s.allData) else Latest(s.log, Temp)
  {
    assert Save(s, snapshot).log[..|s.log|] == s.log;
  }

  /** A counted date leaves the temp file holding the new `all_data`; any
      other outcome leaves the latest temp write as it was. */
  lemma LatestTempStep(s: State, c: Completion)
    ensures Latest(Step(s, c).log, Temp)
      == if Counted(c) then Some(Step(s, c).allData) else Latest(s.log, Temp)
  {
    if Counted(c) {
      var s1 := Count(s, c.result.records);
      var t := Save(s1, Temp);
      LatestSave(s1, Temp);
      LatestSave(t, Numbered(t.completed));
      LatestSave(Backed(s, c.result.records), Hourly(HourBucket(c.now)));
    } else if c.result.Raised? && s.allData != [] {
      LatestSave(s, ErrorBackup(SecondStamp(c.now)));
    }
  }

  /** Once a date has been counted, the temp file holds all of `all_data`. */
  lemma {:induction false} TempHoldsAll(existing: set<string>, cs: seq<Completion>)
    ensures var s := Run(existing, cs);
      Latest(s.log, Temp) == if s.completed == 0 then None else Some(s.allData)
  {
    if cs != [] {
      var prefix := cs[..|cs| - 1];
      TempHoldsAll(existing, prefix);
      LatestTempStep(Run(existing, prefix), cs[|cs| - 1]);
    }
  }

  /** The hours in which a date was counted. */
  function Buckets(cs: seq<Completion>): set<string>
  {
    if cs == [] then {}
    else Buckets(cs[..|cs| - 1]) + (if Counted(cs[|cs| - 1]) then {HourBucket(cs[|cs| - 1].now)} else {})
  }

  /** An hourly path is on disk exactly when it existed before or the loop
      wrote that hourly backup. */
  lemma HourlyOnDisk(existing: set<string>, log: seq<Write>, b: string)
    ensures PathOf(Hourly(b)) in existing + PathsOf(log)
      <==> PathOf(Hourly(b)) in existing || Hourly(b) in multiset(Snapshots(log))
  {
    var p := PathOf(Hourly(b));
    PathsOfMember(log, p);
    if p in PathsOf(log) {
      var i :| 0 <= i < |log| && PathOf(log[i].snapshot) == p;
      PathOfInjective(log[i].snapshot, Hourly(b));
      assert Snapshots(log)[i] == Hourly(b);
    }
    if Hourly(b) in multiset(Snapshots(log)) {
      var i :| 0 <= i < |log| && Snapshots(log)[i] == Hourly(b);
      assert PathOf(log[i].snapshot) == p;
    }
  }

  /** One outcome adds one temp write when it is counted and never a
      final one. */
  lemma KindsAdded(s: State, c: Completion)
    ensures multiset(Added(s, c))[Temp] == if Counted(c) then 1 else 0
    ensures multiset(Added(s, c))[Final] == 0
  {
  }

  /** Writing the temp file and a numbered backup leaves the question of
      whether an hourly file exists as it was. */
  lemma BackedHourly(s: State, data: seq<Record>, b: string)
    ensures PathOf(Hourly(b)) in Backed(s, data).files <==> PathOf(Hourly(b)) in s.files
  {
    PathHead(Hourly(b));
    PathHead(Temp);
    PathHead(Numbered(s.completed + 1));
  }

  lemma HourlyAdded(s: State, c: Completion, b: string)
    ensures multiset(Added(s, c))[Hourly(b)]
      == if Counted(c) && HourBucket(c.now) == b && PathOf(Hourly(b)) !in s.files then 1 else 0
  {
  }

  /** An hourly backup is written once for every hour in which a date was
      counted, unless its file already existed, and never otherwise. */
  lemma {:induction false} HourlyBackups(existing: set<string>, cs: seq<Completion>, b: string)
    ensures var s := Run(existing, cs);
      multiset(Snapshots(s.log))[Hourly(b)]
        == if PathOf(Hourly(b)) !in existing && b in Buckets(cs) then 1 else 0
  {
    if cs != [] {
      var prefix, c := cs[..|cs| - 1], cs[|cs| - 1];
      HourlyBackups(existing, prefix, b);
      var s := Run(existing, prefix);
      StepSnapshots(s, c);
      HourlyAdded(s, c, b);
      FilesOnDisk(existing, prefix);
      HourlyOnDisk(existing, s.log, b);
    }
  }

  /** The number of snapshots in `ss` that satisfy `p`. */
  function CountWhere(ss: seq<Snapshot>, p: Snapshot -> bool): nat
  {
    if ss == [] then 0
    else CountWhere(ss[..|ss| - 1], p) + (if p(ss[|ss| - 1]) then 1 else 0)
  }

  lemma {:induction false} CountWhereAppend(a: seq<Snapshot>, b: seq<Snapshot>, p: Snapshot -> bool)
    ensures CountWhere(a + b, p) == CountWhere(a, p) + CountWhere(b, p)
  {
    if b == [] {
      assert a + b == a;
    } else {
      CountWhereAppend(a, b[..|b| - 1], p);
      assert (a + b)[..|a + b| - 1] == a + b[..|b| - 1];
    }
  }

  predicate IsErrorBackup(x: Snapshot)
  {
    x.ErrorBackup?
  }

  predicate IsNumbered(x: Snapshot)
  {
    x.Numbered?
  }

  lemma ErrorBackupsAdded(s: State, c: Completion)
    ensures CountWhere(Added(s, c), IsErrorBackup) == if c.result.Raised? && s.allData != [] then 1 else 0
  {
    if Counted(c) {
      var n, bucket := s.completed + 1, HourBucket(c.now);
      var m := if n % 5 == 0 then [Numbered(n)] else [];
      var h := if PathOf(Hourly(bucket)) in s.files then [] else [Hourly(bucket)];
      CountWhereAppend([Temp] + m, h, IsErrorBackup);
      CountWhereAppend([Temp], m, IsErrorBackup);
      assert CountWhere([Temp], IsErrorBackup) == 0;
      assert CountWhere(h, IsErrorBackup) == 0;
      assert CountWhere(m, IsErrorBackup) == 0;
    } else if c.result.Raised? && s.allData != [] {
      assert CountWhere([ErrorBackup(SecondStamp(c.now))], IsErrorBackup) == 1;
    }
  }

  lemma NumberedBackupsAdded(s: State, c: Completion)
    ensures CountWhere(Added(s, c), IsNumbered) == if Counted(c) && (s.completed + 1) % 5 == 0 then 1 else 0
  {
    if Counted(c) {
      var n, bucket := s.completed + 1, HourBucket(c.now);
      var m := if n % 5 == 0 then [Numbered(n)] else [];
      var h := if PathOf(Hourly(bucket)) in s.files then [] else [Hourly(bucket)];
      CountWhereAppend([Temp] + m, h, IsNumbered);
      CountWhereAppend([Temp], m, IsNumbered);
      assert CountWhere([Temp], IsNumbered) == 0;
      assert CountWhere(h, IsNumbered) == 0;
      assert CountWhere(m, IsNumbered) == if n % 5 == 0 then 1 else 0;
    } else if c.result.Raised? && s.allData != [] {
      assert CountWhere([ErrorBackup(SecondStamp(c.now))], IsNumbered) == 0;
    }
  }

  /** One outcome adds a numbered backup exactly when it brings the count
      to a multiple of 5. */
  lemma NumberedCountStep(s: State, c: Completion)
    ensures CountWhere(Snapshots(Step(s, c).log), IsNumbered)
      == CountWhere(Snapshots(s.log), IsNumbered) + (if Counted(c) && (s.completed + 1) % 5 == 0 then 1 else 0)
  {
    StepSnapshots(s, c);
    CountWhereAppend(Snapshots(s.log), Added(s, c), IsNumbered);
    NumberedBackupsAdded(s, c);
  }

  lemma FifthsStep(k: nat)
    ensures (k + 1) / 5 == k / 5 + (if (k + 1) % 5 == 0 then 1 else 0)
  {
  }

  /** `k` counted dates leave `k / 5` numbered backups. */
  lemma {:induction false} NumberedBackupCount(existing: set<string>, cs: seq<Completion>)
    ensures var s := Run(existing, cs); CountWhere(Snapshots(s.log), IsNumbered) == s.completed / 5
  {
    if cs != [] {
      var prefix, c := cs[..|cs| - 1], cs[|cs| - 1];
      NumberedBackupCount(existing, prefix);
      var s := Run(existing, prefix);
      NumberedCountStep(s, c);
      TotalsStep(s, c);
      FifthsStep(s.completed);
    }
  }

  /** The number of tasks that raised after some date had been counted. */
  function FailuresAfterData(cs: seq<Completion>): nat
  {
    if cs == [] then 0
    else
      var prefix := cs[..|cs| - 1];
      FailuresAfterData(prefix) + (if cs[|cs| - 1].result.Raised? && Successes(prefix) > 0 then 1 else 0)
  }

  /** An error backup is written for a failed task exactly when records had
      been gathered before it. */
  lemma {:induction false} ErrorBackupCount(existing: set<string>, cs: seq<Completion>)
    ensures CountWhere(Snapshots(Run(existing, cs).log), IsErrorBackup) == FailuresAfterData(cs)
  {
    if cs != [] {
      var prefix, c := cs[..|cs| - 1], cs[|cs| - 1];
      ErrorBackupCount(existing, prefix);
      RunTotals(existing, prefix);
      var s := Run(existing, prefix);
      StepSnapshots(s, c);
      CountWhereAppend(Snapshots(s.log), Added(s, c), IsErrorBackup);
      ErrorBackupsAdded(s, c);
    }
  }

  /** Only the write after the loop goes to the final output file. */
  lemma {:induction false} FinalOnlyAtEnd(existing: set<string>, cs: seq<Completion>)
    ensures multiset(Snapshots(Run(existing, cs).log))[Final] == 0
  {
    if cs != [] {
      var prefix, c := cs[..|cs| - 1], cs[|cs| - 1];
      FinalOnlyAtEnd(existing, prefix);
      var s := Run(existing, prefix);
      StepSnapshots(s, c);
      KindsAdded(s, c);
    }
  }
}
