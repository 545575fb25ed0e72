/**
 One server's copy of the replicated log (server_replication.go): appending, committing,
 applying, recovering from the log file and catching up from a leader.
 */
module Replication {
  import opened Base

  datatype LogEntry = LogEntry(index: int, op: string, filename: string, content: string, version: int)

  type Files = map<string, string>

  /** log, commitIndex and lastApplied live in memory, files and disk (the log file) survive a crash. */
  datatype Replica = Replica(log: seq<LogEntry>, commitIndex: int, lastApplied: int, files: Files, disk: seq<LogEntry>)

  // ---------- applying entries to files ----------

  function Apply(files: Files, e: LogEntry): Files {
    if e.op == "WRITE" then files[e.filename := e.content] else files
  }

  function Replay(files: Files, entries: seq<LogEntry>): Files {
    if entries == [] then files
    else Apply(Replay(files, entries[..|entries| - 1]), entries[|entries| - 1])
  }

  lemma {:induction false} ReplayConcat(files: Files, a: seq<LogEntry>, b: seq<LogEntry>)
    ensures Replay(files, a + b) == Replay(Replay(files, a), b)
  {
    if b == [] {
      assert a + b == a;
    } else {
      assert (a + b)[..|a + b| - 1] == a + b[..|b| - 1];
      ReplayConcat(files, a, b[..|b| - 1]);
    }
  }

  lemma ReplayOneMore(files: Files, log: seq<LogEntry>, a: nat, b: nat)
    requires a <= b < |log|
    ensures Replay(files, log[a..b + 1]) == Apply(Replay(files, log[a..b]), log[b])
    ensures a == b ==> Replay(files, log[a..b]) == files
  {
    var done := log[a..b + 1];
    assert done[..|done| - 1] == log[a..b];
  }

  function Lookup(files: Files, name: string): Option<string> {
    if name in files then Some(files[name]) else None
  }

  /** The text of a file, empty when there is no such file. */
  function TextOf(files: Files, name: string): string {
    if name in files then files[name] else ""
  }

  /** The content of the last entry that writes the file. */
  function LastContent(entries: seq<LogEntry>, name: string): Option<string> {
    if entries == [] then None
    else
      var e := entries[|entries| - 1];
      if e.op == "WRITE" && e.filename == name then Some(e.content)
      else LastContent(entries[..|entries| - 1], name)
  }

  /** entry i writes the file and no later entry does. */
  ghost predicate IsLastWrite(entries: seq<LogEntry>, name: string, i: int) {
    && 0 <= i < |entries| && entries[i].op == "WRITE" && entries[i].filename == name
    && forall j :: i < j < |entries| && entries[j].op == "WRITE" ==> entries[j].filename != name
  }

  lemma {:induction false} LastContentMeaning(entries: seq<LogEntry>, name: string)
    ensures match LastContent(entries, name)
            case Some(c) => exists i :: IsLastWrite(entries, name, i) && entries[i].content == c
            case None => forall i :: 0 <= i < |entries| && entries[i].op == "WRITE" ==> entries[i].filename != name
  {
    if entries == [] {
    } else {
      var n := |entries| - 1;
      var e := entries[n];
      if e.op == "WRITE" && e.filename == name {
        assert IsLastWrite(entries, name, n);
      } else {
        LastContentMeaning(entries[..n], name);
        if LastContent(entries, name).Some? {
          var i :| IsLastWrite(entries[..n], name, i) && entries[..n][i].content == LastContent(entries, name).value;
          assert IsLastWrite(entries, name, i);
        }
      }
    }
  }

  lemma {:induction false} LastContentConcat(a: seq<LogEntry>, b: seq<LogEntry>, name: string)
    ensures LastContent(a + b, name)
            == if LastContent(b, name).Some? then LastContent(b, name) else LastContent(a, name)
  {
    if b == [] {
      assert a + b == a;
    } else {
      assert (a + b)[..|a + b| - 1] == a + b[..|b| - 1];
      LastContentConcat(a, b[..|b| - 1], name);
    }
  }

  /** A replayed file holds the content of the last entry that writes it, or what it held before. */
  lemma {:induction false} ReplayLookup(files: Files, entries: seq<LogEntry>, name: string)
    ensures Lookup(Replay(files, entries), name)
            == if LastContent(entries, name).Some? then LastContent(entries, name) else Lookup(files, name)
  {
    if entries == [] {
    } else {
      ReplayLookup(files, entries[..|entries| - 1], name);
    }
  }

  lemma SameLookups(a: Files, b: Files)
    requires forall name :: Lookup(a, name) == Lookup(b, name)
    ensures a == b
  {
    forall name ensures (name in a <==> name in b) && (name in a ==> a[name] == b[name]) {
      assert Lookup(a, name) == Lookup(b, name);
    }
    assert a.Keys == b.Keys;
  }

  // ---------- AppendEntries ----------

  /** Entries with an index beyond the log are appended, whatever that index is. */
  function AppendNew(log: seq<LogEntry>, entries: seq<LogEntry>): seq<LogEntry> {
    if entries == [] then log
    else
      var front, e := AppendNew(log, entries[..|entries| - 1]), entries[|entries| - 1];
      if e.index <= |front| then front else front + [e]
  }

  function Min(a: int, b: int): int {
    if a <= b then a else b
  }

  function Max(a: int, b: int): int {
    if a <= b then b else a
  }

  /** The entries up to the commit index that exist are applied, each once and in order. */
  function ApplyCommitted(r: Replica): Replica
    requires 0 <= r.lastApplied
  {
    var target := Min(r.commitIndex, |r.log|);
    if target <= r.lastApplied then r
    else r.(lastApplied := target, files := Replay(r.files, r.log[r.lastApplied..target]))
  }

  function AppendEntries(r: Replica, entries: seq<LogEntry>, leaderCommit: int): Replica
    requires 0 <= r.lastApplied
  {
    var log := AppendNew(r.log, entries);
    AppendNewExtends(r.log, entries);
    ApplyCommitted(r.(log := log,
                      disk := r.disk + log[|r.log|..],
                      commitIndex := Max(r.commitIndex, leaderCommit)))
  }

  lemma {:induction false} AppendNewExtends(log: seq<LogEntry>, entries: seq<LogEntry>)
    ensures log <= AppendNew(log, entries)
  {
    if entries == [] {
    } else {
      AppendNewExtends(log, entries[..|entries| - 1]);
    }
  }

  lemma AppendKeepsDisk(r: Replica, entries: seq<LogEntry>, leaderCommit: int)
    requires 0 <= r.lastApplied
    ensures r.disk <= AppendEntries(r, entries, leaderCommit).disk
  {
  }

  // ---------- recovery ----------

  function HighestIndex(commitIndex: int, entries: seq<LogEntry>): int {
    if entries == [] then commitIndex
    else
      var front := HighestIndex(commitIndex, entries[..|entries| - 1]);
      if entries[|entries| - 1].index > front then entries[|entries| - 1].index else front
  }

  /** A crash loses the memory and keeps files and log file. */
  function Crash(r: Replica): Replica {
    Replica([], 0, 0, r.files, r.disk)
  }

  function Recover(r: Replica): Replica {
    var c := HighestIndex(r.commitIndex, r.disk);
    r.(log := r.log + r.disk,
       files := Replay(r.files, r.disk),
       commitIndex := c,
       lastApplied := if c > r.commitIndex then c else r.lastApplied)
  }

  // ---------- catching up from a leader ----------

  /** Incremental update: known entries are skipped, the first gap stops it. */
  function CatchUp(log: seq<LogEntry>, entries: seq<LogEntry>): (seq<LogEntry>, bool)
    decreases entries
  {
    if entries == [] then (log, true)
    else if entries[0].index <= |log| then CatchUp(log, entries[1..])
    else if entries[0].index != |log| + 1 then (log, false)
    else CatchUp(log + [entries[0]], entries[1..])
  }

  function OverwriteAll(files: Files, copies: seq<(string, string)>): Files {
    if copies == [] then files
    else OverwriteAll(files, copies[..|copies| - 1])[copies[|copies| - 1].0 := copies[|copies| - 1].1]
  }

  /** Full synchronisation forgets the log in memory, not the log file. */
  function FullSync(r: Replica, copies: seq<(string, string)>): Replica {
    Replica([], 0, 0, OverwriteAll(r.files, copies), r.disk)
  }

  // ---------- the server object ----------

  class Server {
    var log: seq<LogEntry>
    var commitIndex: int
    var lastApplied: int
    var files: Files
    var disk: seq<LogEntry>

    constructor (files: Files, disk: seq<LogEntry>)
      ensures View() == Replica([], 0, 0, files, disk)
    {
      log, commitIndex, lastApplied, this.files, this.disk := [], 0, 0, files, disk;
    }

    function View(): Replica
      reads this
    {
      Replica(log, commitIndex, lastApplied, files, disk)
    }

    method ApplyEntry(e: LogEntry)
      modifies this`files
      ensures files == Apply(old(files), e)
    {
      if e.op == "WRITE" {
        files := files[e.filename := e.content];
      }
    }

    method ApplyAllCommitted()
      requires 0 <= lastApplied
      modifies this
      ensures View() == ApplyCommitted(old(View()))
    {
      while lastApplied < commitIndex && lastApplied < |log|
        invariant 0 <= old(lastApplied) <= lastApplied
        invariant lastApplied > old(lastApplied) ==> lastApplied <= Min(commitIndex, |log|)
        invariant log == old(log) && commitIndex == old(commitIndex) && disk == old(disk)
        invariant lastApplied == old(lastApplied) ==> files == old(files)
        invariant lastApplied > old(lastApplied) ==> files == Replay(old(files), log[old(lastApplied)..lastApplied])
      {
        lastApplied := lastApplied + 1;
        ReplayOneMore(old(files), log, old(lastApplied), lastApplied - 1);
        ApplyEntry(log[lastApplied - 1]);
      }
    }

    method HandleAppendEntries(entries: seq<LogEntry>, leaderCommit: int) returns (success: bool)
      requires 0 <= lastApplied
      modifies this
      ensures success && View() == AppendEntries(old(View()), entries, leaderCommit)
    {
      for i := 0 to |entries|
        invariant log == AppendNew(old(log), entries[..i]) && old(log) <= log
        invariant disk == old(disk) + log[|old(log)|..]
        invariant commitIndex == old(commitIndex) && lastApplied == old(lastApplied) && files == old(files)
      {
        assert entries[..i + 1][..i] == entries[..i];
        var e := entries[i];
        if e.index > |log| {
          log := log + [e];
          disk := disk + [e];
        }
      }
      assert entries[..|entries|] == entries;
      if leaderCommit > commitIndex {
        commitIndex := leaderCommit;
      }
      ApplyAllCommitted();
      success := true;
    }

    /** The loop of recoverFromLog over the log file. */
    method ReplayLog()
      modifies this
      ensures View() == Recover(old(View()))
    {
      for i := 0 to |disk|
        invariant disk == old(disk) && log == old(log) + disk[..i]
        invariant files == Replay(old(files), disk[..i])
        invariant commitIndex == HighestIndex(old(commitIndex), disk[..i]) && commitIndex >= old(commitIndex)
        invariant lastApplied == if commitIndex > old(commitIndex) then commitIndex else old(lastApplied)
      {
        var e := disk[i];
        assert disk[..i + 1][..i] == disk[..i];
        log := log + [e];
        ApplyEntry(e);
        if e.index > commitIndex {
          commitIndex := e.index;
          lastApplied := e.index;
        }
      }
      assert disk[..|disk|] == disk;
    }

    method ApplyIncrement(entries: seq<LogEntry>) returns (ok: bool)
      modifies this
      ensures (log, ok) == CatchUp(old(log), entries)
      ensures old(log) <= log && disk == old(disk) + log[|old(log)|..]
      ensures commitIndex == old(commitIndex) && lastApplied == old(lastApplied) && files == old(files)
    {
      for i := 0 to |entries|
        invariant CatchUp(log, entries[i..]) == CatchUp(old(log), entries)
        invariant old(log) <= log && disk == old(disk) + log[|old(log)|..]
        invariant commitIndex == old(commitIndex) && lastApplied == old(lastApplied) && files == old(files)
      {
        var e := entries[i];
        assert entries[i..][1..] == entries[i + 1..];
        if e.index <= |log| {
          continue;
        }
        if e.index != |log| + 1 {
          return false;
        }
        log := log + [e];
        disk := disk + [e];
      }
      return true;
    }

    method ApplyFullSync(copies: seq<(string, string)>)
      modifies this
      ensures View() == FullSync(old(View()), copies)
    {
      log, commitIndex, lastApplied := [], 0, 0;
      for i := 0 to |copies|
        invariant View() == FullSync(old(View()), copies[..i])
      {
        assert copies[..i + 1][..i] == copies[..i];
        files := files[copies[i].0 := copies[i].1];
      }
      assert copies[..|copies|] == copies;
    }
  }

  // ---------- every sequence of AppendEntries calls ----------

  datatype Request = Request(entries: seq<LogEntry>, leaderCommit: int)

  /** The files are the replay of the applied prefix, which is as long as it can be. */
  ghost predicate Consistent(r: Replica, initial: Files) {
    && 0 <= r.lastApplied == Min(r.commitIndex, |r.log|)
    && r.files == Replay(initial, r.log[..r.lastApplied])
  }

  function HandleAll(r: Replica, requests: seq<Request>): Replica
    requires 0 <= r.lastApplied
    ensures 0 <= HandleAll(r, requests).lastApplied
  {
    if requests == [] then r
    else
      var last := requests[|requests| - 1];
      AppendEntries(HandleAll(r, requests[..|requests| - 1]), last.entries, last.leaderCommit)
  }

  lemma ApplyCommittedConsistent(r: Replica, initial: Files)
    requires 0 <= r.lastApplied <= Min(r.commitIndex, |r.log|)
    requires r.files == Replay(initial, r.log[..r.lastApplied])
    ensures Consistent(ApplyCommitted(r), initial)
  {
    var target := Min(r.commitIndex, |r.log|);
    ReplayConcat(initial, r.log[..r.lastApplied], r.log[r.lastApplied..target]);
    assert r.log[..r.lastApplied] + r.log[r.lastApplied..target] == r.log[..target];
  }

  /** Committing the last entry applies everything beyond lastApplied, and that entry decides its
      file, unless lastApplied already lies at or beyond it; then no file changes. */
  lemma ApplyToEnd(r: Replica)
    requires 0 <= r.lastApplied && r.log != []
    ensures var r' := ApplyCommitted(r.(commitIndex := |r.log|));
            var last := r.log[|r.log| - 1];
            if r.lastApplied < |r.log| then
              && r' == r.(commitIndex := |r.log|,
                          lastApplied := |r.log|,
                          files := Replay(r.files, r.log[r.lastApplied..]))
              && (last.op == "WRITE" ==> Lookup(r'.files, last.filename) == Some(last.content))
            else
              r' == r.(commitIndex := |r.log|)
  {
    if r.lastApplied < |r.log| {
      assert r.log[r.lastApplied..|r.log|] == r.log[r.lastApplied..];
      ReplayLookup(r.files, r.log[r.lastApplied..], r.log[|r.log| - 1].filename);
    }
  }

  lemma AppendEntriesConsistent(r: Replica, initial: Files, req: Request)
    requires Consistent(r, initial)
    ensures var r' := AppendEntries(r, req.entries, req.leaderCommit);
            && Consistent(r', initial) && r.log <= r'.log
            && r.commitIndex <= r'.commitIndex && r.lastApplied <= r'.lastApplied
  {
    AppendNewExtends(r.log, req.entries);
    var log := AppendNew(r.log, req.entries);
    assert log[..r.lastApplied] == r.log[..r.lastApplied];
    ApplyCommittedConsistent(r.(log := log,
                                disk := r.disk + log[|r.log|..],
                                commitIndex := Max(r.commitIndex, req.leaderCommit)),
                             initial);
  }

  /** Whatever a backup is sent, in any order and with any gaps. */
  lemma {:induction false} AnyRequestsConsistent(r: Replica, initial: Files, requests: seq<Request>)
    requires Consistent(r, initial)
    ensures var r' := HandleAll(r, requests);
            && Consistent(r', initial) && r.log <= r'.log
            && r.commitIndex <= r'.commitIndex && r.lastApplied <= r'.lastApplied
  {
    if requests == [] {
    } else {
      var front := requests[..|requests| - 1];
      AnyRequestsConsistent(r, initial, front);
      AppendEntriesConsistent(HandleAll(r, front), initial, requests[|requests| - 1]);
    }
  }

  /** c is the greatest of the commit index at the start and all commit indices received. */
  ghost predicate IsGreatestCommit(c: int, start: int, requests: seq<Request>) {
    && start <= c && (forall i :: 0 <= i < |requests| ==> requests[i].leaderCommit <= c)
    && (c == start || exists i :: 0 <= i < |requests| && requests[i].leaderCommit == c)
  }

  lemma GreatestCommitStep(c: int, start: int, requests: seq<Request>)
    requires requests != [] && IsGreatestCommit(c, start, requests[..|requests| - 1])
    ensures IsGreatestCommit(Max(c, requests[|requests| - 1].leaderCommit), start, requests)
  {
    var front := requests[..|requests| - 1];
    if c != start {
      var i :| 0 <= i < |front| && front[i].leaderCommit == c;
      assert requests[i].leaderCommit == c;
    }
  }

  lemma AppendedCommit(r: Replica, entries: seq<LogEntry>, leaderCommit: int)
    requires 0 <= r.lastApplied
    ensures AppendEntries(r, entries, leaderCommit).commitIndex == Max(r.commitIndex, leaderCommit)
  {
  }

  /** Whatever a backup is sent, its commit index is the greatest it has heard of; with
      AnyRequestsConsistent, it has applied every entry up to there that it has. */
  lemma {:induction false} CommitIndexIsGreatest(r: Replica, requests: seq<Request>)
    requires 0 <= r.lastApplied
    ensures IsGreatestCommit(HandleAll(r, requests).commitIndex, r.commitIndex, requests)
  {
    if requests == [] {
    } else {
      var front, last := requests[..|requests| - 1], requests[|requests| - 1];
      CommitIndexIsGreatest(r, front);
      AppendedCommit(HandleAll(r, front), last.entries, last.leaderCommit);
      GreatestCommitStep(HandleAll(r, front).commitIndex, r.commitIndex, requests);
    }
  }

  /** What a request appends: only its own entries, in order, each beyond the end of the log, and
      one of its entries is missing afterwards only if its index was not beyond the end. */
  lemma {:induction false} AppendNewMeaning(log: seq<LogEntry>, entries: seq<LogEntry>)
    ensures var log' := AppendNew(log, entries);
            && |log| <= |log'|
            && (forall i :: |log| <= i < |log'| ==> log'[i] in entries && log'[i].index > i)
            && (forall i :: 0 <= i < |entries| ==> entries[i] in log'[|log|..] || entries[i].index <= |log'|)
  {
    if entries == [] {
    } else {
      var n := |entries| - 1;
      var front := AppendNew(log, entries[..n]);
      AppendNewMeaning(log, entries[..n]);
      var log' := AppendNew(log, entries);
      forall i | 0 <= i < |entries| ensures entries[i] in log'[|log|..] || entries[i].index <= |log'| {
        if i < n {
          assert entries[..n][i] == entries[i];
          assert log'[|log|..] == front[|log|..] || log'[|log|..] == front[|log|..] + [entries[n]];
        } else if entries[n].index > |front| {
          assert log'[|log|..] == front[|log|..] + [entries[n]];
        }
      }
    }
  }

  /** In a consistent replica a file holds the content of an applied entry that no later applied
      entry overwrites. */
  lemma AppliedEntryDecides(r: Replica, initial: Files, k: nat)
    requires Consistent(r, initial) && 1 <= k <= r.lastApplied && r.log[k - 1].op == "WRITE"
    requires forall j :: k <= j < r.lastApplied && r.log[j].op == "WRITE" ==>
                           r.log[j].filename != r.log[k - 1].filename
    ensures Lookup(r.files, r.log[k - 1].filename) == Some(r.log[k - 1].content)
  {
    var applied, name := r.log[..r.lastApplied], r.log[k - 1].filename;
    ReplayLookup(initial, applied, name);
    LastContentMeaning(applied, name);
    assert applied[k - 1] == r.log[k - 1];
    var i :| IsLastWrite(applied, name, i) && applied[i].content == LastContent(applied, name).value;
    assert applied[i] == r.log[i];
  }

  // ---------- recovery is idempotent at every crash point ----------

  /** Files that differ from initial only where the entries write. */
  ghost predicate Between(files: Files, initial: Files, entries: seq<LogEntry>) {
    forall name :: LastContent(entries, name).None? ==> Lookup(files, name) == Lookup(initial, name)
  }

  lemma ReplayOverwrites(files: Files, initial: Files, entries: seq<LogEntry>)
    requires Between(files, initial, entries)
    ensures Replay(files, entries) == Replay(initial, entries)
  {
    forall name ensures Lookup(Replay(files, entries), name) == Lookup(Replay(initial, entries), name) {
      ReplayLookup(files, entries, name);
      ReplayLookup(initial, entries, name);
    }
    SameLookups(Replay(files, entries), Replay(initial, entries));
  }

  lemma ReplayStaysBetween(files: Files, initial: Files, entries: seq<LogEntry>, k: nat)
    requires Between(files, initial, entries) && k <= |entries|
    ensures Between(Replay(files, entries[..k]), initial, entries)
  {
    forall name | LastContent(entries, name).None?
      ensures Lookup(Replay(files, entries[..k]), name) == Lookup(initial, name)
    {
      LastContentConcat(entries[..k], entries[k..], name);
      assert entries[..k] + entries[k..] == entries;
      ReplayLookup(files, entries[..k], name);
    }
  }

  /** Recoveries that crashed after replaying some number of entries each. */
  function Interrupted(files: Files, entries: seq<LogEntry>, crashes: seq<nat>): Files
    requires forall i :: 0 <= i < |crashes| ==> crashes[i] <= |entries|
  {
    if crashes == [] then files
    else Replay(Interrupted(files, entries, crashes[..|crashes| - 1]), entries[..crashes[|crashes| - 1]])
  }

  lemma {:induction false} InterruptedStaysBetween(files: Files, initial: Files, entries: seq<LogEntry>,
                                                   crashes: seq<nat>)
    requires Between(files, initial, entries)
    requires forall i :: 0 <= i < |crashes| ==> crashes[i] <= |entries|
    ensures Between(Interrupted(files, entries, crashes), initial, entries)
  {
    if crashes == [] {
    } else {
      var front := crashes[..|crashes| - 1];
      InterruptedStaysBetween(files, initial, entries, front);
      ReplayStaysBetween(Interrupted(files, entries, front), initial, entries, crashes[|crashes| - 1]);
    }
  }

  /** After any applied prefix and any number of interrupted recoveries, a recovery
      leaves the files of one replay of the whole log from the start. */
  lemma RecoveryIdempotent(initial: Files, disk: seq<LogEntry>, applied: nat, crashes: seq<nat>)
    requires applied <= |disk|
    requires forall i :: 0 <= i < |crashes| ==> crashes[i] <= |disk|
    ensures var left := Interrupted(Replay(initial, disk[..applied]), disk, crashes);
            Recover(Replica([], 0, 0, left, disk)).files == Replay(initial, disk)
  {
    ReplayStaysBetween(initial, initial, disk, applied);
    InterruptedStaysBetween(Replay(initial, disk[..applied]), initial, disk, crashes);
    ReplayOverwrites(Interrupted(Replay(initial, disk[..applied]), disk, crashes), initial, disk);
  }

  ghost predicate Dense(log: seq<LogEntry>) {
    forall i :: 0 <= i < |log| ==> log[i].index == i + 1
  }

  lemma {:induction false} DenseHighest(log: seq<LogEntry>)
    requires Dense(log)
    ensures HighestIndex(0, log) == |log|
  {
    if log == [] {
    } else {
      DenseHighest(log[..|log| - 1]);
    }
  }

  lemma {:induction false} HighestAbove(entries: seq<LogEntry>, k: nat)
    ensures 0 <= HighestIndex(0, entries)
    ensures HighestIndex(0, entries) > k <==> exists i :: 0 <= i < |entries| && entries[i].index > k
  {
    if entries == [] {
    } else {
      var n := |entries| - 1;
      HighestAbove(entries[..n], k);
      if entries[n].index <= k && HighestIndex(0, entries) > k {
        var i :| 0 <= i < n && entries[..n][i].index > k;
        assert entries[i].index > k;
      }
    }
  }

  /** Some entry of the log file has an index beyond the number of entries. */
  ghost predicate Overshoots(disk: seq<LogEntry>) {
    exists i :: 0 <= i < |disk| && disk[i].index > |disk|
  }

  /** Recovery calls every entry committed and applied up to the highest index, which lies beyond
      the end of the log exactly when some entry does. */
  lemma RecoveredIndices(r: Replica)
    ensures var r', h := Recover(Crash(r)), HighestIndex(0, r.disk);
            && r' == Replica(r.disk, h, h, Replay(r.files, r.disk), r.disk) && 0 <= h
            && (r'.lastApplied > |r'.log| <==> Overshoots(r.disk))
  {
    HighestAbove(r.disk, |r.disk|);
    assert [] + r.disk == r.disk;
  }

  /** On a dense log recovery treats every logged entry as committed and applied. */
  lemma RecoveryCommitsWholeLog(r: Replica)
    requires Dense(r.disk)
    ensures Recover(Crash(r)) == Replica(r.disk, |r.disk|, |r.disk|, Replay(r.files, r.disk), r.disk)
  {
    RecoveredIndices(r);
    DenseHighest(r.disk);
  }

  lemma ReplayOne(files: Files, e: LogEntry)
    requires e.op == "WRITE"
    ensures Replay(files, [e]) == files[e.filename := e.content]
  {
    assert [e][..0] == [];
  }

  lemma FirstAppend(files: Files, e: LogEntry)
    requires e.index > 1 && e.op == "WRITE"
    ensures AppendEntries(Replica([], 0, 0, files, []), [e], e.index)
            == Replica([e], e.index, 1, files[e.filename := e.content], [e])
  {
    AppendOne([], e);
    ReplayOne(files, e);
    assert [] + [e] == [e] && [e][0..] == [e] && [e][0..1] == [e];
  }

  lemma RecoveryOfOne(files: Files, e: LogEntry)
    requires e.index > 1 && e.op == "WRITE"
    ensures Recover(Replica([], 0, 0, files, [e]))
            == Replica([e], e.index, e.index, files[e.filename := e.content], [e])
  {
    ReplayOne(files, e);
    RecoveredIndices(Replica([], 0, 0, files, [e]));
    assert HighestIndex(0, [e]) == e.index by { assert [e][..0] == []; }
  }

  /** A backup that joined late has an empty log. The first entry it is sent has a higher index
      than its log has entries, and so has lastApplied once it restarts. */
  lemma LateBackupOvershoots(files: Files, e: LogEntry)
    requires e.index > 1 && e.op == "WRITE"
    ensures var late := AppendEntries(Replica([], 0, 0, files, []), [e], e.index);
            && late == Replica([e], e.index, 1, files[e.filename := e.content], [e])
            && Recover(Crash(late)) == Replica([e], e.index, e.index, files[e.filename := e.content], [e])
  {
    FirstAppend(files, e);
    RecoveryOfOne(files[e.filename := e.content], e);
  }

  lemma {:induction false} OverwrittenFile(files: Files, copies: seq<(string, string)>, name: string, i: nat)
    requires i < |copies| && copies[i].0 == name
    requires forall j :: i < j < |copies| ==> copies[j].0 != name
    ensures Lookup(OverwriteAll(files, copies), name) == Some(copies[i].1)
  {
    if i == |copies| - 1 {
    } else {
      OverwrittenFile(files, copies[..|copies| - 1], name, i);
    }
  }

  lemma {:induction false} UntouchedFile(files: Files, copies: seq<(string, string)>, name: string)
    requires forall j :: 0 <= j < |copies| ==> copies[j].0 != name
    ensures Lookup(OverwriteAll(files, copies), name) == Lookup(files, name)
  {
    if copies == [] {
    } else {
      UntouchedFile(files, copies[..|copies| - 1], name);
    }
  }

  /** A full synchronisation empties the log in memory, keeps the log file, gives every file in the
      copies the last of its copies, and leaves every other file alone. */
  lemma FullSyncResult(r: Replica, copies: seq<(string, string)>)
    ensures var r' := FullSync(r, copies);
            && r' == Replica([], 0, 0, r'.files, r.disk)
            && (forall i :: 0 <= i < |copies| && (forall j :: i < j < |copies| ==> copies[j].0 != copies[i].0) ==>
                              Lookup(r'.files, copies[i].0) == Some(copies[i].1))
            && (forall name :: (forall j :: 0 <= j < |copies| ==> copies[j].0 != name) ==>
                                 Lookup(r'.files, name) == Lookup(r.files, name))
  {
    var r' := FullSync(r, copies);
    forall i | 0 <= i < |copies| && (forall j :: i < j < |copies| ==> copies[j].0 != copies[i].0)
      ensures Lookup(r'.files, copies[i].0) == Some(copies[i].1)
    {
      OverwrittenFile(r.files, copies, copies[i].0, i);
    }
    forall name | forall j :: 0 <= j < |copies| ==> copies[j].0 != name
      ensures Lookup(r'.files, name) == Lookup(r.files, name)
    {
      UntouchedFile(r.files, copies, name);
    }
  }

  /** A full synchronisation survives a restart exactly when the log file's last write
      of every file agrees with what was synchronised. */
  lemma FullSyncSurvivesRestartIff(r: Replica, copies: seq<(string, string)>)
    ensures var synced := FullSync(r, copies);
            Recover(Crash(synced)).files == synced.files
            <==> forall name :: LastContent(r.disk, name).Some? ==>
                   Lookup(synced.files, name) == LastContent(r.disk, name)
  {
    var files := FullSync(r, copies).files;
    forall name ensures Lookup(Replay(files, r.disk), name)
                        == if LastContent(r.disk, name).Some? then LastContent(r.disk, name) else Lookup(files, name)
    {
      ReplayLookup(files, r.disk, name);
    }
    if forall name :: LastContent(r.disk, name).Some? ==> Lookup(files, name) == LastContent(r.disk, name) {
      SameLookups(Replay(files, r.disk), files);
    }
  }

  /** A backup that logged one write, was synchronised to a newer text and restarts. */
  lemma RestartCanUndoFullSync()
    ensures var e := LogEntry(1, "WRITE", "f", "1\n", 1);
            var synced := FullSync(Replica([e], 1, 1, map["f" := "1\n"], [e]), [("f", "1\n2\n")]);
            TextOf(synced.files, "f") == "1\n2\n" && TextOf(Recover(Crash(synced)).files, "f") == "1\n"
  {
    var e := LogEntry(1, "WRITE", "f", "1\n", 1);
    var copies := [("f", "1\n2\n")];
    assert copies[..0] == [];
    var synced := FullSync(Replica([e], 1, 1, map["f" := "1\n"], [e]), copies);
    ReplayLookup(synced.files, [e], "f");
  }

  // ---------- catching up ----------

  lemma {:induction false} CatchUpKeepsDense(log: seq<LogEntry>, entries: seq<LogEntry>)
    requires Dense(log)
    ensures Dense(CatchUp(log, entries).0) && log <= CatchUp(log, entries).0
    decreases entries
  {
    if entries == [] {
    } else {
      if entries[0].index <= |log| {
        CatchUpKeepsDense(log, entries[1..]);
      } else if entries[0].index == |log| + 1 {
        CatchUpKeepsDense(log + [entries[0]], entries[1..]);
      }
    }
  }

  /** A longer log that already has what the entries bring changes nothing more. */
  lemma {:induction false} CatchUpAgain(log: seq<LogEntry>, entries: seq<LogEntry>, later: seq<LogEntry>)
    requires |log| <= |later| && later == CatchUp(log, entries).0
    ensures CatchUp(later, entries) == CatchUp(log, entries)
    decreases entries
  {
    if entries == [] {
    } else {
      if entries[0].index <= |log| {
        CatchUpAgain(log, entries[1..], later);
      } else if entries[0].index == |log| + 1 {
        CatchUpGrows(log + [entries[0]], entries[1..]);
        CatchUpAgain(log + [entries[0]], entries[1..], later);
      }
    }
  }

  lemma {:induction false} CatchUpGrows(log: seq<LogEntry>, entries: seq<LogEntry>)
    ensures log <= CatchUp(log, entries).0
    decreases entries
  {
    if entries == [] {
    } else {
      if entries[0].index <= |log| {
        CatchUpGrows(log, entries[1..]);
      } else if entries[0].index == |log| + 1 {
        CatchUpGrows(log + [entries[0]], entries[1..]);
      }
    }
  }

  /** Receiving the same update twice is the same as once, success or gap alike. */
  lemma CatchUpIdempotent(log: seq<LogEntry>, entries: seq<LogEntry>)
    ensures CatchUp(CatchUp(log, entries).0, entries) == CatchUp(log, entries)
  {
    CatchUpGrows(log, entries);
    CatchUpAgain(log, entries, CatchUp(log, entries).0);
  }

  ghost predicate FromLeader(entries: seq<LogEntry>, leader: seq<LogEntry>) {
    forall i :: 0 <= i < |entries| ==>
      1 <= entries[i].index <= |leader| && entries[i] == leader[entries[i].index - 1]
  }

  /** Fed a leader's entries, a prefix of its log only grows to a longer prefix. */
  lemma {:induction false} CatchUpKeepsPrefix(log: seq<LogEntry>, entries: seq<LogEntry>, leader: seq<LogEntry>)
    requires log <= leader && FromLeader(entries, leader)
    ensures log <= CatchUp(log, entries).0 <= leader
    decreases entries
  {
    if entries == [] {
    } else {
      if entries[0].index <= |log| {
        CatchUpKeepsPrefix(log, entries[1..], leader);
      } else if entries[0].index == |log| + 1 {
        assert log + [entries[0]] <= leader;
        CatchUpKeepsPrefix(log + [entries[0]], entries[1..], leader);
      }
    }
  }

  /** An update fails exactly at its first gap and keeps what came before it. */
  lemma {:induction false} CatchUpStopsAtGap(log: seq<LogEntry>, entries: seq<LogEntry>) returns (k: nat)
    requires !CatchUp(log, entries).1
    ensures k < |entries| && CatchUp(log, entries[..k]) == (CatchUp(log, entries).0, true)
    ensures entries[k].index > |CatchUp(log, entries).0| + 1
    decreases entries
  {
    if entries[0].index <= |log| {
      var j := CatchUpStopsAtGap(log, entries[1..]);
      k := j + 1;
      assert entries[..k][1..] == entries[1..][..j];
    } else if entries[0].index == |log| + 1 {
      var j := CatchUpStopsAtGap(log + [entries[0]], entries[1..]);
      k := j + 1;
      assert entries[..k][1..] == entries[1..][..j];
    } else {
      k := 0;
    }
  }

  /** A contiguous piece of the leader's log that meets the follower's brings it level. */
  lemma {:induction false} CatchUpReaches(log: seq<LogEntry>, leader: seq<LogEntry>, a: nat, b: nat)
    requires log <= leader && Dense(leader) && a <= b <= |leader| && a <= |log|
    ensures CatchUp(log, leader[a..b]) == (if b <= |log| then log else leader[..b], true)
    decreases b - a
  {
    if a < b {
      var es := leader[a..b];
      assert es[1..] == leader[a + 1..b];
      assert es[0].index == a + 1;
      if a < |log| {
        CatchUpReaches(log, leader, a + 1, b);
      } else {
        assert log + [es[0]] == leader[..a + 1];
        CatchUpReaches(leader[..a + 1], leader, a + 1, b);
      }
    } else {
      assert b == |log| ==> leader[..b] == log;
    }
  }

  // ---------- delivery without gaps ----------

  lemma AppendOne(log: seq<LogEntry>, e: LogEntry)
    ensures AppendNew(log, [e]) == if e.index <= |log| then log else log + [e]
  {
    assert [e][..0] == [];
  }

  lemma PrefixSnoc(log: seq<LogEntry>, leader: seq<LogEntry>, e: LogEntry)
    requires log <= leader
    ensures log + [e] <= leader <==> |log| < |leader| && leader[|log|] == e
  {
    if log + [e] <= leader { assert (log + [e])[|log|] == e; }
  }

  /** Appending a leader's entry keeps a prefix of its log a prefix exactly when the
      entry does not skip its predecessor. */
  lemma AppendKeepsPrefixIff(log: seq<LogEntry>, leader: seq<LogEntry>, e: LogEntry)
    requires log <= leader && Dense(leader)
    requires 1 <= e.index <= |leader| && e == leader[e.index - 1]
    ensures AppendNew(log, [e]) <= leader <==> e.index <= |log| + 1
  {
    AppendOne(log, e);
    PrefixSnoc(log, leader, e);
    if |log| < |leader| { assert leader[|log|].index == |log| + 1; }
  }
}
