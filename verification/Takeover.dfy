/**
 The prime sets and indices of a server that starts (connection.go) or takes over from a failed
 primary (server_replication.go), and what the next committed Close makes of the files.
 */
module Takeover {
  import opened Base
  import opened NumberText
  import opened PrimeSets
  import opened Replication
  import opened Requests

  /** A committed Close keeps the numbers the file held exactly when it does not write the file,
      the set has them already, or the Close brings them again. */
  lemma CloseKeepsNumbersIff(s: Primary, c: Call, name: string)
    requires 0 <= s.rep.lastApplied && IsMapOrder(c.order)
    requires Admitted(s, c.req, name) && ReachesMajority(s, c.acks)
    ensures var s' := Close(s, c.req, c.order, c.acks).0;
            var numbers := Stored(TextOf(s.rep.files, name));
            numbers <= Stored(TextOf(s'.rep.files, name))
            <==> s.rep.lastApplied > |s.rep.log| || numbers <= StoredSet(s, name) + Stored(c.req.data)
  {
    CommittedClose(s, c, name);
  }

  /** Its own numbers reach the file exactly when it writes the file or the file has them. */
  lemma CloseBringsNumbersIff(s: Primary, c: Call, name: string)
    requires 0 <= s.rep.lastApplied && IsMapOrder(c.order)
    requires Admitted(s, c.req, name) && ReachesMajority(s, c.acks)
    ensures var s' := Close(s, c.req, c.order, c.acks).0;
            Stored(c.req.data) <= Stored(TextOf(s'.rep.files, name))
            <==> s.rep.lastApplied <= |s.rep.log| || Stored(c.req.data) <= Stored(TextOf(s.rep.files, name))
  {
    CommittedClose(s, c, name);
  }

  // ---------- after a start ----------

  /** A server that has just been created: a backup with nothing in memory. */
  ghost predicate IsNew(s: Primary) {
    s == Primary(false, s.clusterSize, Crash(s.rep), map[], map[], map[], map[], false)
  }

  /** Clients have opened files in between. */
  ghost predicate AfterOpens(s: Primary, s': Primary) {
    s' == s.(fds := s'.fds, versions := s'.versions)
  }

  /** A new server is still a backup while it recovers, so no set is rebuilt, elected or not. */
  lemma StartRebuildsNothing(s: Primary, elected: bool)
    requires IsNew(s)
    ensures Start(s, elected) == s.(rep := Recover(s.rep), isPrimary := elected)
  {
  }

  /** The first committed Close of a file after a start. If some entry of the log file has an index
      beyond the number of entries, the Close does not write the file: the recovered numbers stay
      and new ones are missing. Otherwise recovered numbers stay only if it brings them again. */
  lemma StartKeepsNumbersIff(s: Primary, ready: Primary, c: Call, name: string)
    requires IsNew(s) && AfterOpens(Start(s, true), ready) && IsMapOrder(c.order)
    requires Admitted(ready, c.req, name) && ReachesMajority(ready, c.acks)
    ensures 0 <= ready.rep.lastApplied
    ensures var s' := Close(ready, c.req, c.order, c.acks).0;
            var before, after := Stored(TextOf(Recover(s.rep).files, name)), Stored(TextOf(s'.rep.files, name));
            && (before <= after <==> Overshoots(s.rep.disk) || before <= Stored(c.req.data))
            && (Stored(c.req.data) <= after <==> !Overshoots(s.rep.disk) || Stored(c.req.data) <= before)
  {
    StartRebuildsNothing(s, true);
    RecoveredIndices(s.rep);
    CloseKeepsNumbersIff(ready, c, name);
    CloseBringsNumbersIff(ready, c, name);
  }

  // ---------- after a takeover ----------

  /** A takeover gives a file the set of the numbers it holds if it is one of the rebuilt files,
      and leaves its set alone otherwise. */
  lemma TakeOverSet(s: Primary, name: string)
    ensures var s' := TakeOver(s);
            && s' == s.(isPrimary := true, sets := s'.sets)
            && StoredSet(s', name)
               == if IsRebuilt(name) && name in s.rep.files then Stored(s.rep.files[name]) else StoredSet(s, name)
  {
  }

  lemma EmptyStored()
    ensures Stored("") == {}
  {
  }

  /** The first committed Close of a file after a takeover keeps its numbers exactly when the Close
      does not write it, it was rebuilt, or its old set and the Close together have all of them. */
  lemma TakeOverKeepsNumbersIff(s: Primary, ready: Primary, c: Call, name: string)
    requires 0 <= s.rep.lastApplied && AfterOpens(TakeOver(s), ready) && IsMapOrder(c.order)
    requires Admitted(ready, c.req, name) && ReachesMajority(ready, c.acks)
    ensures var s' := Close(ready, c.req, c.order, c.acks).0;
            var numbers := Stored(TextOf(s.rep.files, name));
            numbers <= Stored(TextOf(s'.rep.files, name))
            <==> s.rep.lastApplied > |s.rep.log| || IsRebuilt(name)
                 || numbers <= StoredSet(s, name) + Stored(c.req.data)
  {
    TakeOverSet(s, name);
    CloseKeepsNumbersIff(ready, c, name);
    EmptyStored();
  }

  /** The names Create accepts. */
  predicate IsCreatable(name: string) {
    "output/" <= name || "output\\" <= name
  }

  /** Of the names that Create accepts none that begins with output/ is rebuilt; the others are
      rebuilt unless they lead into a directory or end like a temporary or version file. */
  lemma CreatedIsRebuiltIff(name: string)
    requires IsCreatable(name)
    ensures IsRebuilt(name)
            <==> && !("output/" <= name)
                 && '/' !in name && !EndsWith(name, ".tmp") && !EndsWith(name, ".meta")
  {
    if "output/" <= name {
      assert name[6] == '/';
    } else {
      assert "output" <= "output\\" <= name;
    }
  }

  // ---------- a start, a takeover and a late backup at work ----------

  /** A new server among three. */
  function NewServer(files: Files, disk: seq<LogEntry>): Primary {
    Primary(false, 3, Replica([], 0, 0, files, disk), map[], map[], map[], map[], false)
  }

  /** A client opens the file for writing. */
  function WithOpen(s: Primary, name: string): Primary {
    s.(fds := map[0 := OpenFile(name, map["a" := WriteMode])])
  }

  /** A Close that brings 5 and that one backup acknowledges. */
  ghost const CLOSE_5: Call := Call(CloseRequest("1", "a", 0, true, 1, Digits(5)), AnyOrder, [true])

  lemma Close5Commits(s: Primary, name: string)
    requires s == WithOpen(NewServer(map[], []), name).(isPrimary := true, rep := s.rep)
    ensures Admitted(s, CLOSE_5.req, name) && ReachesMajority(s, CLOSE_5.acks) && IsMapOrder(CLOSE_5.order)
    ensures StoredSet(s, name) + Stored(CLOSE_5.req.data) == {5}
  {
    StoredDigits(5);
    AnyOrderIsMapOrder();
  }

  lemma Close5Result(s: Primary, name: string)
    requires s == WithOpen(NewServer(map[], []), name).(isPrimary := true, rep := s.rep) && 0 <= s.rep.lastApplied
    ensures var (s', o) := Close(s, CLOSE_5.req, CLOSE_5.order, CLOSE_5.acks);
            && o == Returned(2) && StoredSet(s', name) == {5}
            && (s.rep.lastApplied <= |s.rep.log| ==> Stored(TextOf(s'.rep.files, name)) == {5})
            && (s.rep.lastApplied > |s.rep.log| ==> s'.rep.files == s.rep.files)
  {
    Close5Commits(s, name);
    CommittedClose(s, CLOSE_5, name);
  }

  /** After a start on a file with 7, a committed Close of 5 leaves 5 only. */
  lemma StartCanLoseNumbers(name: string)
    ensures var s := WithOpen(Start(NewServer(map[name := Digits(7)], []), true), name);
            && 0 <= s.rep.lastApplied && Stored(TextOf(s.rep.files, name)) == {7}
            && var (s', o) := Close(s, CLOSE_5.req, CLOSE_5.order, CLOSE_5.acks);
            o == Returned(2) && Stored(TextOf(s'.rep.files, name)) == {5}
  {
    StoredDigits(7);
    StartRebuildsNothing(NewServer(map[name := Digits(7)], []), true);
    Close5Result(WithOpen(Start(NewServer(map[name := Digits(7)], []), true), name), name);
  }

  /** So does a takeover by a backup with that file, under any name that begins with output/. */
  lemma TakeOverCanLoseNumbers(name: string)
    requires "output/" <= name
    ensures var s := WithOpen(TakeOver(NewServer(map[name := Digits(7)], [])), name);
            && 0 <= s.rep.lastApplied && Stored(TextOf(s.rep.files, name)) == {7}
            && var (s', o) := Close(s, CLOSE_5.req, CLOSE_5.order, CLOSE_5.acks);
            o == Returned(2) && Stored(TextOf(s'.rep.files, name)) == {5}
  {
    StoredDigits(7);
    CreatedIsRebuiltIff(name);
    NothingRebuilt(NewServer(map[name := Digits(7)], []), name);
    Close5Result(WithOpen(TakeOver(NewServer(map[name := Digits(7)], [])), name), name);
  }

  lemma NothingRebuilt(s: Primary, name: string)
    requires s.rep.files.Keys == {name} && !IsRebuilt(name)
    ensures TakeOver(s) == s.(isPrimary := true)
  {
    assert Rebuilt({name}) == {};
    assert s.sets + SetsOf(s.rep.files, {}) == s.sets;
  }

  /** A backup that joined late is sent entry 7, restarts and is elected. A Close of 5 commits and
      its set holds 5, but the file still holds 7 and nothing else. */
  lemma LateBackupLosesClose(name: string, e: LogEntry)
    requires e == LogEntry(7, "WRITE", name, Digits(7), 2)
    ensures var late := AppendEntries(Replica([], 0, 0, map[], []), [e], 7);
            var s := WithOpen(Start(NewServer(late.files, late.disk), true), name);
            && s.rep.lastApplied == 7 && |s.rep.log| == 1
            && var (s', o) := Close(s, CLOSE_5.req, CLOSE_5.order, CLOSE_5.acks);
            o == Returned(2) && StoredSet(s', name) == {5} && Stored(TextOf(s'.rep.files, name)) == {7}
  {
    LateBackupOvershoots(map[], e);
    var late := AppendEntries(Replica([], 0, 0, map[], []), [e], 7);
    StartRebuildsNothing(NewServer(late.files, late.disk), true);
    StoredDigits(7);
    Close5Result(WithOpen(Start(NewServer(late.files, late.disk), true), name), name);
  }
}
