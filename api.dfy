/** The HTTP API of api/main.py: the two read-only cookie getters, the store wipe, and
    the start/stop endpoints of the collector and the cleaner, which keep a pid file per
    program. The operating system is reduced to the set of process ids that a signal can
    reach; the pid files are a map from program to file contents. */
module Api {
  import opened Wrappers
  import opened Text
  import opened Store

  // ---------------------------------------------------------------------------
  // get_latest_cookie and get_random_cookie

  /** The `after_captcha` query parameter: `None` selects every row. */
  type Filter = Option<bool>

  predicate Matches(x: CookieRecord, filter: Filter) {
    filter.None? || x.afterCaptcha == filter.value
  }

  /** `query.filter(Cookie.after_captcha == after_captcha)` when a filter is given, in
      table order. */
  function Matching(rows: seq<CookieRecord>, filter: Filter): (r: seq<CookieRecord>)
    ensures forall x :: x in r <==> x in rows && Matches(x, filter)
    ensures |r| <= |rows|
  {
    if |rows| == 0 then []
    else (if Matches(rows[0], filter) then [rows[0]] else []) + Matching(rows[1..], filter)
  }

  /** The answer of a getter: the chosen row, or the error response `{"error": ...}`. */
  datatype Lookup = Found(record: CookieRecord) | NoMatchingCookie

  /** A row with the largest timestamp (the first such row in table order). */
  function Newest(rows: seq<CookieRecord>): (x: CookieRecord)
    requires rows != []
    ensures x in rows
    ensures forall j :: 0 <= j < |rows| ==> rows[j].timestamp <= x.timestamp
  {
    if |rows| == 1 then
      rows[0]
    else
      var later := Newest(rows[1..]);
      if later.timestamp > rows[0].timestamp then later else rows[0]
  }

  /** `get_latest_cookie(after_captcha)`: `ORDER BY timestamp DESC`, the optional filter,
      then `first()`. The database does not fix the order among equal timestamps; the
      model takes the first of them. */
  function LatestCookie(rows: seq<CookieRecord>, filter: Filter): (r: Lookup)
    ensures r.NoMatchingCookie? <==> forall x :: x in rows ==> !Matches(x, filter)
    ensures r.Found? ==> r.record in rows && Matches(r.record, filter)
    ensures r.Found? ==> forall x :: x in rows && Matches(x, filter) ==>
      x.timestamp <= r.record.timestamp
  {
    var candidates := Matching(rows, filter);
    if candidates == [] then
      NoMatchingCookie
    else
      var x := Newest(candidates);
      assert forall y :: y in candidates ==> y.timestamp <= x.timestamp by {
        forall y | y in candidates ensures y.timestamp <= x.timestamp {
          var j :| 0 <= j < |candidates| && candidates[j] == y;
        }
      }
      Found(x)
  }

  /** `get_random_cookie(after_captcha)`: the filtered rows, then `random.choice`, whose
      draw is the index `pick`. */
  function RandomCookie(rows: seq<CookieRecord>, filter: Filter, pick: nat): (r: Lookup)
    requires pick < |Matching(rows, filter)| || Matching(rows, filter) == []
    ensures r.NoMatchingCookie? <==> forall x :: x in rows ==> !Matches(x, filter)
    ensures r.Found? ==> r.record in rows && Matches(r.record, filter)
  {
    var candidates := Matching(rows, filter);
    if candidates == [] then
      NoMatchingCookie
    else
      assert candidates[0] in candidates;
      Found(candidates[pick])
  }

  // ---------------------------------------------------------------------------
  // Properties of the getters

  /** Every matching row is a possible answer of `get_random_cookie`. */
  lemma EveryMatchCanBeDrawn(rows: seq<CookieRecord>, filter: Filter, x: CookieRecord)
    requires x in rows && Matches(x, filter)
    ensures exists pick: nat ::
              pick < |Matching(rows, filter)| && RandomCookie(rows, filter, pick) == Found(x)
  {
    var candidates := Matching(rows, filter);
    var pick :| 0 <= pick < |candidates| && candidates[pick] == x;
    assert RandomCookie(rows, filter, pick) == Found(x);
  }

  /** The two getters give the error response on exactly the same tables. */
  lemma GettersAgreeOnEmpty(rows: seq<CookieRecord>, filter: Filter, pick: nat)
    requires pick < |Matching(rows, filter)| || Matching(rows, filter) == []
    ensures LatestCookie(rows, filter).NoMatchingCookie? <==>
      RandomCookie(rows, filter, pick).NoMatchingCookie?
  {
  }

  /** Without a filter, the latest row is as new as every row of the table. */
  lemma LatestOfAll(rows: seq<CookieRecord>)
    requires rows != []
    ensures LatestCookie(rows, None).Found?
    ensures forall x :: x in rows ==> x.timestamp <= LatestCookie(rows, None).record.timestamp
  {
    assert Matches(rows[0], None);
  }

  // ---------------------------------------------------------------------------
  // Pid files

  /** `str.isspace()`: the characters `str.strip()` removes. */
  predicate IsSpace(c: char) {
    || '\t' <= c <= '\r'
    || '\U{1c}' <= c <= ' '
    || c == '\U{85}' || c == '\U{a0}' || c == '\U{1680}'
    || '\U{2000}' <= c <= '\U{200a}'
    || c == '\U{2028}' || c == '\U{2029}' || c == '\U{202f}' || c == '\U{205f}' || c == '\U{3000}'
  }

  /** `s.lstrip()`: the suffix left after the leading whitespace. */
  function StripLeft(s: string): (r: string)
    ensures |r| <= |s| && r == s[|s| - |r|..]
    ensures forall i :: 0 <= i < |s| - |r| ==> IsSpace(s[i])
    ensures r == [] || !IsSpace(r[0])
  {
    if |s| > 0 && IsSpace(s[0]) then StripLeft(s[1..]) else s
  }

  /** `s.rstrip()`: the prefix left before the trailing whitespace. */
  function StripRight(s: string): (r: string)
    ensures |r| <= |s| && r == s[..|r|]
    ensures forall i :: |r| <= i < |s| ==> IsSpace(s[i])
    ensures r == [] || !IsSpace(r[|r| - 1])
  {
    if |s| > 0 && IsSpace(s[|s| - 1]) then StripRight(s[..|s| - 1]) else s
  }

  /** `s.strip()`. */
  function Strip(s: string): string {
    StripRight(StripLeft(s))
  }

  /** The stripped text is the slice of `s` that starts after the leading whitespace. */
  lemma StripIsSlice(s: string)
    ensures |s| - |StripLeft(s)| + |Strip(s)| <= |s|
    ensures Strip(s) == s[|s| - |StripLeft(s)|..|s| - |StripLeft(s)| + |Strip(s)|]
  {
    SliceOfSuffix(s, |s| - |StripLeft(s)|, StripLeft(s), Strip(s));
  }

  /** A prefix of the suffix from `off` is a slice from `off`. */
  lemma SliceOfSuffix(s: string, off: nat, l: string, t: string)
    requires off <= |s| && l == s[off..] && |t| <= |l| && t == l[..|t|]
    ensures off + |t| <= |s| && t == s[off..off + |t|]
  {
    forall k | 0 <= k < |t| ensures t[k] == s[off + k] {
      assert t[k] == l[k];
    }
  }

  /** `int(s.strip())` in base 10: an optional sign and at least one ASCII digit; `None`
      stands for the `ValueError`. */
  function ParsePid(s: string): (r: Option<int>)
    ensures r.Some? ==> exists i :: 0 <= i < |s| && IsDigit(s[i])
    ensures r.Some? && r.value < 0 ==> '-' in s
  {
    var t := Strip(s);
    StripIsSlice(s);
    if t != [] && (t[0] == '+' || t[0] == '-') then
      var digits := t[1..];
      if digits != [] && AllDigits(digits) then
        assert IsDigit(digits[0]);
        assert digits[0] == t[1] == s[|s| - |StripLeft(s)| + 1] && t[0] == s[|s| - |StripLeft(s)|];
        var value: int := DecimalValue(digits);
        Some(if t[0] == '-' then -value else value)
      else
        None
    else if t != [] && AllDigits(t) then
      assert IsDigit(t[0]);
      assert t[0] == s[|s| - |StripLeft(s)|];
      Some(DecimalValue(t))
    else
      None
  }

  /** Leading whitespace is skipped by `lstrip()`. */
  lemma {:induction false} StripLeftPadded(lead: string, s: string)
    requires forall i :: 0 <= i < |lead| ==> IsSpace(lead[i])
    requires s != [] && !IsSpace(s[0])
    ensures StripLeft(lead + s) == s
  {
    if lead != [] {
      assert (lead + s)[1..] == lead[1..] + s;
      StripLeftPadded(lead[1..], s);
    } else {
      assert lead + s == s;
    }
  }

  /** Trailing whitespace is skipped by `rstrip()`. */
  lemma {:induction false} StripRightPadded(s: string, trail: string)
    requires forall i :: 0 <= i < |trail| ==> IsSpace(trail[i])
    requires s != [] && !IsSpace(s[|s| - 1])
    ensures StripRight(s + trail) == s
  {
    if trail != [] {
      var init := trail[..|trail| - 1];
      assert (s + trail)[..|s + trail| - 1] == s + init;
      StripRightPadded(s, init);
    } else {
      assert s + trail == s;
    }
  }

  lemma DigitsAreNotWhitespace(s: string)
    requires AllDigits(s) && s != []
    ensures !IsSpace(s[0]) && !IsSpace(s[|s| - 1])
  {
    assert IsDigit(s[0]) && IsDigit(s[|s| - 1]);
  }

  /** What `_launch_detached` writes, `str(pid)`, reads back as the same pid, also when
      the file has gained whitespace around it (a trailing newline, say). */
  lemma ParsePidRoundTrip(lead: string, pid: nat, trail: string)
    requires forall i :: 0 <= i < |lead| ==> IsSpace(lead[i])
    requires forall i :: 0 <= i < |trail| ==> IsSpace(trail[i])
    ensures ParsePid(lead + NatToString(pid) + trail) == Some(pid)
  {
    var s := NatToString(pid);
    DigitsAreNotWhitespace(s);
    assert lead + s + trail == lead + (s + trail);
    assert (s + trail)[0] == s[0];
    StripLeftPadded(lead, s + trail);
    StripRightPadded(s, trail);
    NatToStringRoundTrip(pid);
  }

  /** A pid file without a single digit is always rejected. */
  lemma ParsePidNeedsDigit(s: string)
    requires forall i :: 0 <= i < |s| ==> !IsDigit(s[i])
    ensures ParsePid(s) == None
  {
    var t := Strip(s);
    var l := StripLeft(s);
    assert t == l[..|t|] && l == s[|s| - |l|..];
    if t != [] {
      assert t[0] == s[|s| - |l|];
      if |t| > 1 {
        assert t[1] == s[|s| - |l| + 1];
      }
    }
  }

  // ---------------------------------------------------------------------------
  // The supervisor

  /** The two programs the API starts and stops, each with its own pid file. */
  datatype Job = CollectorJob | CleanerJob

  /** A pid file that exists: its text, or a read that raises `OSError`. */
  datatype PidFile = PidText(text: string) | Unreadable

  /** `int(pid_file.read_text().strip())`, `None` when it raises. */
  function ReadPid(file: PidFile): Option<int> {
    match file
    case Unreadable => None
    case PidText(text) => ParsePid(text)
  }

  /** The file names a process that `os.kill(pid, 0)` reaches. */
  predicate NamesLivePid(file: PidFile, live: set<int>) {
    ReadPid(file).Some? && ReadPid(file).value in live
  }

  /** What `subprocess.Popen` and the following `write_text` did on a launch. */
  datatype Spawn = SpawnFailed | PidFileUnwritable | Spawned

  /** The answer of a start endpoint: the pid, status 409, or status 500. */
  datatype StartReply = Launched(pid: int) | AlreadyRunning | LaunchFailed

  /** The answer of a stop endpoint. */
  datatype StopReply = Stopped(processKilled: bool, cookiesDeleted: nat)

  /** A pid that was written is found running while its process lives. */
  lemma WrittenPidNamesLiveProcess(pid: nat, live: set<int>)
    requires pid in live
    ensures NamesLivePid(PidText(NatToString(pid)), live)
  {
    var s := NatToString(pid);
    var none := s[..0];
    assert none + s + none == s;
    ParsePidRoundTrip(none, pid, none);
    assert ParsePid(s) == Some(pid);
  }

  /** The pid-file state of the API host: the pid files, and the pids that a signal
      reaches. */
  class Supervisor {
    var pidFiles: map<Job, PidFile>
    var live: set<int>

    constructor(pidFiles: map<Job, PidFile>, live: set<int>)
      ensures this.pidFiles == pidFiles && this.live == live
    {
      this.pidFiles := pidFiles;
      this.live := live;
    }

    /** `_is_process_running(pid_file)`: true only for an existing file naming a live
        process; a file that cannot be read, does not parse or names a dead process is
        removed. */
    method IsProcessRunning(job: Job) returns (running: bool)
      modifies this
      ensures running <==> job in old(pidFiles) && NamesLivePid(old(pidFiles)[job], live)
      ensures pidFiles == if running then old(pidFiles) else old(pidFiles) - {job}
      ensures live == old(live)
    {
      if job !in pidFiles {
        return false;
      }
      var pid := ReadPid(pidFiles[job]);
      if pid.Some? && pid.value in live {
        return true;
      }
      pidFiles := pidFiles - {job};
      return false;
    }

    /** `_launch_detached(cmd, cwd, pid_file)`: the new process gets the pid `newPid`
        from the system and its pid is written to the file. `None` stands for an
        exception; when only the write fails, the process runs on without a file. */
    method LaunchDetached(job: Job, spawn: Spawn, newPid: nat) returns (pid: Option<nat>)
      requires newPid !in live
      modifies this
      ensures spawn.SpawnFailed? ==> pid == None && live == old(live) && pidFiles == old(pidFiles)
      ensures spawn.PidFileUnwritable? ==>
        pid == None && live == old(live) + {newPid} && pidFiles == old(pidFiles)
      ensures spawn.Spawned? ==>
        && pid == Some(newPid) && live == old(live) + {newPid}
        && pidFiles == old(pidFiles)[job := PidText(NatToString(newPid))]
    {
      if spawn.SpawnFailed? {
        return None;
      }
      live := live + {newPid};
      if spawn.PidFileUnwritable? {
        return None;
      }
      pidFiles := pidFiles[job := PidText(NatToString(newPid))];
      return Some(newPid);
    }

    /** `start_collector()` / `start_cleaner()`: 409 and no launch while the program
        runs; otherwise a launch, answered with the pid or with 500. */
    method Start(job: Job, spawn: Spawn, newPid: nat) returns (reply: StartReply)
      requires newPid !in live
      modifies this
      ensures old(job in pidFiles && NamesLivePid(pidFiles[job], live)) ==>
        reply == AlreadyRunning && pidFiles == old(pidFiles) && live == old(live)
      ensures !old(job in pidFiles && NamesLivePid(pidFiles[job], live)) ==>
        && (reply.Launched? <==> spawn.Spawned?)
        && (reply.Launched? ==> reply.pid == newPid)
        && (!reply.Launched? ==> reply == LaunchFailed)
        && live == old(live) + (if spawn.SpawnFailed? then {} else {newPid})
        && pidFiles == if spawn.Spawned? then old(pidFiles)[job := PidText(NatToString(newPid))]
                       else old(pidFiles) - {job}
    {
      var running := IsProcessRunning(job);
      if running {
        return AlreadyRunning;
      }
      var pid := LaunchDetached(job, spawn, newPid);
      if pid.Some? {
        reply := Launched(pid.value);
        assert pidFiles == (old(pidFiles) - {job})[job := PidText(NatToString(newPid))];
      } else {
        reply := LaunchFailed;
      }
    }

    /** `_kill_process_tree(pid_file)` on a POSIX host: `False` without a file; the
        process group of a live pid receives SIGTERM; the file is gone afterwards. */
    method KillProcessTree(job: Job) returns (killed: bool)
      modifies this
      ensures killed <==> job in old(pidFiles) && NamesLivePid(old(pidFiles)[job], old(live))
      ensures killed ==> live == old(live) - {ReadPid(old(pidFiles)[job]).value}
      ensures !killed ==> live == old(live)
      ensures pidFiles == old(pidFiles) - {job}
    {
      if job !in pidFiles {
        return false;
      }
      var pid := ReadPid(pidFiles[job]);
      killed := false;
      if pid.Some? && pid.value in live {
        live := live - {pid.value};
        killed := true;
      }
      pidFiles := pidFiles - {job};
    }

    /** `stop_collector()` / `stop_cleaner()`: the process is killed if it can be, and
        the table is wiped either way. */
    method Stop(job: Job, db: CookieTable) returns (reply: StopReply)
      modifies this, db
      ensures reply.processKilled <==> job in old(pidFiles) && NamesLivePid(old(pidFiles)[job], old(live))
      ensures reply.processKilled ==> live == old(live) - {ReadPid(old(pidFiles)[job]).value}
      ensures !reply.processKilled ==> live == old(live)
      ensures job !in pidFiles && pidFiles == old(pidFiles) - {job}
      ensures db.rows == [] && reply.cookiesDeleted == |old(db.rows)|
      ensures db.Valid()
    {
      var killed := KillProcessTree(job);
      var deleted := db.DeleteAll();
      reply := Stopped(killed, deleted);
    }
  }
}
