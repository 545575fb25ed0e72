/**
 Close on the primary as one call at a time (server_basics.go): the request cache, the
 open-file table, the whole dirty branch, and the rebuilding of prime sets when a server
 starts or takes over (connection.go, server_replication.go).
 */
module Requests {
  import opened Base
  import opened NumberText
  import opened PrimeSets
  import opened Replication

  /** The iteration order a map gives to each key set. */
  type MapOrder = set<uint64> -> seq<uint64>

  /** A stored response: of a Close, or of a request of another kind with the same ID. */
  datatype Response = CloseResponse(version: int32) | OtherResponse

  datatype Error = NotLeader | NotFound | PermissionDenied | Aborted | Unavailable

  /** Hung: the call never returns, because it waits for the server's mutex forever. */
  datatype Outcome = Returned(version: int32) | Rejected(error: Error) | Hung

  datatype OpenFile = OpenFile(filename: string, clients: map<string, Mode>)

  datatype CloseRequest =
    CloseRequest(requestId: string, client: string, fd: int, dirty: bool, version: int32, data: string)

  /** mutexLost: a call still holds the server's mutex and waits for it a second time. */
  datatype Primary = Primary(
    isPrimary: bool,
    clusterSize: nat,
    rep: Replica,
    sets: map<string, set<uint64>>,
    versions: map<string, int32>,
    fds: map<int, OpenFile>,
    requests: map<string, Response>,
    mutexLost: bool)

  // ---------- what one Close does ----------

  function StoredSet(s: Primary, name: string): set<uint64> {
    SetFor(s.sets, name)
  }

  /** getFileEntry creates an entry of version 1 on first use. */
  function Touch(versions: map<string, int32>, name: string): map<string, int32> {
    if name in versions then versions else versions[name := 1]
  }

  /** The server itself and the positive answers; acks are those that arrive before the timeout. */
  predicate ReachesMajority(s: Primary, acks: seq<bool>) {
    1 + multiset(acks)[true] >= s.clusterSize / 2 + 1
  }

  function NewEntry(s: Primary, name: string, version: int32, data: string, order: MapOrder): LogEntry {
    LogEntry(|s.rep.log| + 1, "WRITE", name, Lines(order(StoredSet(s, name) + Stored(data))), Inc32(version))
  }

  function Logged(rep: Replica, e: LogEntry): Replica {
    rep.(log := rep.log + [e], disk := rep.disk + [e])
  }

  predicate Cached(s: Primary, id: string) {
    id in s.requests && s.requests[id].CloseResponse?
  }

  function Finish(s: Primary, req: CloseRequest, file: OpenFile): (Primary, Outcome)
    requires file.filename in s.versions
  {
    var v := s.versions[file.filename];
    (s.(fds := s.fds[req.fd := file.(clients := file.clients - {req.client})],
        requests := s.requests[req.requestId := CloseResponse(v)]),
     Returned(v))
  }

  /** The dirty branch, after the file's entry has been looked up; None is success. */
  function CommitDirty(s: Primary, req: CloseRequest, file: OpenFile, order: MapOrder, acks: seq<bool>)
    : (Primary, Option<Error>)
    requires file.filename in s.versions && req.client in file.clients && 0 <= s.rep.lastApplied
  {
    var name := file.filename;
    if file.clients[req.client] != WriteMode then (s, Some(PermissionDenied))
    else if req.version != s.versions[name] then (s, Some(Aborted))
    else
      var e := NewEntry(s, name, s.versions[name], req.data, order);
      var logged := s.(rep := Logged(s.rep, e));
      if !ReachesMajority(s, acks) then (logged, Some(Unavailable))
      else
        (logged.(rep := ApplyCommitted(logged.rep.(commitIndex := e.index)),
                 sets := s.sets[name := StoredSet(s, name) + Stored(req.data)],
                 versions := s.versions[name := Inc32(s.versions[name])]),
         None)
  }

  function Close(s: Primary, req: CloseRequest, order: MapOrder, acks: seq<bool>): (Primary, Outcome)
    requires 0 <= s.rep.lastApplied
  {
    if !s.isPrimary then (s, Rejected(NotLeader))
    else if s.mutexLost then (s, Hung)
    else if Cached(s, req.requestId) then (s, Returned(s.requests[req.requestId].version))
    else if req.fd !in s.fds then (s, Rejected(NotFound))
    else if req.client !in s.fds[req.fd].clients then (s.(mutexLost := true), Hung)
    else
      var file := s.fds[req.fd];
      var known := s.(versions := Touch(s.versions, file.filename));
      if !req.dirty then Finish(known, req, file)
      else
        var (s', error) := CommitDirty(known, req, file, order, acks);
        if error.Some? then (s', Rejected(error.value)) else Finish(s', req, file)
  }

  // ---------- starting and taking over ----------

  predicate EndsWith(name: string, suffix: string) {
    |suffix| <= |name| && name[|name| - |suffix|..] == suffix
  }

  /** The names that rebuildAllPrimeSets reads: output files directly in the root directory. */
  predicate IsRebuilt(name: string) {
    "output" <= name && '/' !in name && !EndsWith(name, ".tmp") && !EndsWith(name, ".meta")
  }

  /** The sets read from the files of these names. */
  function SetsOf(files: Files, names: set<string>): map<string, set<uint64>>
    requires names <= files.Keys
  {
    map name | name in names :: Stored(files[name])
  }

  function Rebuilt(names: set<string>): set<string> {
    set name | name in names && IsRebuilt(name)
  }

  function RebuildAll(s: Primary): Primary {
    if s.isPrimary then s.(sets := s.sets + SetsOf(s.rep.files, Rebuilt(s.rep.files.Keys))) else s
  }

  /** Recovery comes first and the role last. */
  function Start(s: Primary, elected: bool): Primary {
    RebuildAll(s.(rep := Recover(s.rep))).(isPrimary := elected)
  }

  /** The role comes first and the sets after it. */
  function TakeOver(s: Primary): Primary {
    RebuildAll(s.(isPrimary := true))
  }

  // ---------- the server object ----------

  /** One more name. */
  lemma SetsOfStep(sets: map<string, set<uint64>>, files: Files, names: set<string>, name: string)
    requires names <= files.Keys && name in files
    ensures sets + SetsOf(files, names + {name}) == (sets + SetsOf(files, names))[name := Stored(files[name])]
  {
    assert SetsOf(files, names + {name}) == SetsOf(files, names)[name := Stored(files[name])];
  }

  /** The loop over the root directory. */
  method LoadSets(sets: map<string, set<uint64>>, files: Files) returns (loaded: map<string, set<uint64>>)
    ensures loaded == sets + SetsOf(files, Rebuilt(files.Keys))
  {
    loaded := sets;
    var todo := files.Keys;
    ghost var done := {};
    while todo != {}
      invariant todo <= files.Keys && done == Rebuilt(files.Keys - todo)
      invariant loaded == sets + SetsOf(files, done)
      decreases todo
    {
      var name :| name in todo;
      todo := todo - {name};
      if IsRebuilt(name) {
        SetsOfStep(sets, files, done, name);
        var newSet := LoadSet(files[name]);
        loaded := loaded[name := newSet.members];
        done := done + {name};
      }
    }
    assert files.Keys - todo == files.Keys;
  }

  class PrimaryServer {
    var isPrimary: bool
    const clusterSize: nat
    const core: Server
    var sets: map<string, set<uint64>>
    var versions: map<string, int32>
    var fds: map<int, OpenFile>
    var requests: map<string, Response>
    var mutexLost: bool

    constructor (clusterSize: nat, core: Server)
      ensures this.core == core
      ensures View() == Primary(false, clusterSize, core.View(), map[], map[], map[], map[], false)
    {
      this.isPrimary, this.clusterSize, this.core := false, clusterSize, core;
      sets, versions, fds, requests, mutexLost := map[], map[], map[], map[], false;
    }

    function View(): Primary
      reads this, core
    {
      Primary(isPrimary, clusterSize, core.View(), sets, versions, fds, requests, mutexLost)
    }

    method RebuildPrimeSet(name: string) returns (ok: bool)
      modifies this
      ensures ok <==> !isPrimary || name in core.files
      ensures View() == if isPrimary && name in core.files then
                          old(View()).(sets := old(sets)[name := Stored(core.files[name])])
                        else old(View())
    {
      if !isPrimary {
        return true;
      }
      if name !in core.files {
        return false;
      }
      var newSet := LoadSet(core.files[name]);
      sets := sets[name := newSet.members];
      return true;
    }

    method RebuildAllPrimeSets()
      modifies this
      ensures View() == RebuildAll(old(View()))
    {
      if !isPrimary {
        return;
      }
      sets := LoadSets(sets, core.files);
    }

    method RecoverFromLog()
      modifies this, core
      ensures View() == RebuildAll(old(View()).(rep := Recover(old(View()).rep)))
    {
      core.ReplayLog();
      RebuildAllPrimeSets();
    }

    /** What a server does before it takes requests. */
    method StartServer(elected: bool)
      modifies this, core
      ensures View() == Start(old(View()), elected)
    {
      RecoverFromLog();
      isPrimary := elected;
    }

    /** What a backup does when it elects itself. */
    method BecomePrimary()
      modifies this
      ensures View() == TakeOver(old(View()))
    {
      isPrimary := true;
      RebuildAllPrimeSets();
    }

    /** The loop that counts answers until a majority or the timeout. */
    method CountAcks(acks: seq<bool>) returns (reached: bool)
      ensures reached <==> 1 + multiset(acks)[true] >= clusterSize / 2 + 1
    {
      var majority := clusterSize / 2 + 1;
      var ackCount, i := 1, 0;
      while ackCount < majority && i < |acks|
        invariant i <= |acks| && ackCount == 1 + multiset(acks[..i])[true]
      {
        assert acks[..i + 1] == acks[..i] + [acks[i]];
        if acks[i] {
          ackCount := ackCount + 1;
        }
        i := i + 1;
      }
      assert acks == acks[..i] + acks[i..];
      reached := ackCount >= majority;
      assert i == |acks| ==> acks[..i] == acks;
    }

    /** The copied set, filtered and printed; the live set is not changed. */
    method BuildContent(name: string, data: string, order: MapOrder)
      returns (temp: set<uint64>, content: string)
      ensures temp == StoredSet(View(), name) + Stored(data) && content == Lines(order(temp))
    {
      var copy := new FilePrimeSet(SetFor(sets, name));
      var nums := ParseNumbers(data);
      var unique := FilterUniquePrimes(nums, copy);
      temp := copy.members;
      content := PrintInOrder(order(temp));
    }

    method CloseDirty(req: CloseRequest, file: OpenFile, order: MapOrder, acks: seq<bool>)
      returns (error: Option<Error>)
      requires file.filename in versions && req.client in file.clients && 0 <= core.lastApplied
      modifies this, core
      ensures (View(), error) == CommitDirty(old(View()), req, file, order, acks)
    {
      var name := file.filename;
      if file.clients[req.client] != WriteMode {
        return Some(PermissionDenied);
      }
      if req.version != versions[name] {
        return Some(Aborted);
      }
      var temp, content := BuildContent(name, req.data, order);
      var entry := LogEntry(|core.log| + 1, "WRITE", name, content, Inc32(versions[name]));
      core.log := core.log + [entry];
      core.disk := core.disk + [entry];
      var reached := CountAcks(acks);
      if !reached {
        return Some(Unavailable);
      }
      core.commitIndex := entry.index;
      core.ApplyAllCommitted();
      sets := sets[name := temp];
      versions := versions[name := Inc32(versions[name])];
      return None;
    }

    method HandleClose(req: CloseRequest, order: MapOrder, acks: seq<bool>) returns (outcome: Outcome)
      requires 0 <= core.lastApplied
      modifies this, core
      ensures (View(), outcome) == Close(old(View()), req, order, acks)
    {
      if !isPrimary {
        return Rejected(NotLeader);
      }
      if mutexLost {
        return Hung;
      }
      if req.requestId in requests && requests[req.requestId].CloseResponse? {
        return Returned(requests[req.requestId].version);
      }
      if req.fd !in fds {
        return Rejected(NotFound);
      }
      var file := fds[req.fd];
      var name := file.filename;
      if req.client !in file.clients {
        mutexLost := true;
        return Hung;
      }
      if name !in versions {
        versions := versions[name := 1];
      }
      if req.dirty {
        var error := CloseDirty(req, file, order, acks);
        if error.Some? {
          return Rejected(error.value);
        }
      }
      fds := fds[req.fd := file.(clients := file.clients - {req.client})];
      requests := requests[req.requestId := CloseResponse(versions[name])];
      return Returned(versions[name]);
    }
  }

  // ---------- repeated request IDs ----------

  /** A request with the choices the environment makes while it is served. */
  datatype Call = Call(req: CloseRequest, order: MapOrder, acks: seq<bool>)

  lemma CloseKeepsApplied(s: Primary, c: Call)
    requires 0 <= s.rep.lastApplied
    ensures 0 <= Close(s, c.req, c.order, c.acks).0.rep.lastApplied
  {
  }

  ghost function Run(s: Primary, calls: seq<Call>): (r: Primary)
    requires 0 <= s.rep.lastApplied
    ensures 0 <= r.rep.lastApplied
  {
    if calls == [] then s
    else
      var before, c := Run(s, calls[..|calls| - 1]), calls[|calls| - 1];
      CloseKeepsApplied(before, c);
      Close(before, c.req, c.order, c.acks).0
  }

  /** The answer call i of the run gets. */
  ghost function Answer(s: Primary, calls: seq<Call>, i: nat): Outcome
    requires 0 <= s.rep.lastApplied && i < |calls|
  {
    var c := calls[i];
    Close(Run(s, calls[..i]), c.req, c.order, c.acks).1
  }

  /** An earlier call with the same request ID succeeded. */
  ghost predicate IsRepeat(s: Primary, calls: seq<Call>, i: nat)
    requires 0 <= s.rep.lastApplied && i < |calls|
  {
    exists j :: 0 <= j < i && calls[j].req.requestId == calls[i].req.requestId && Answer(s, calls, j).Returned?
  }

  ghost function WithoutRepeats(s: Primary, calls: seq<Call>): seq<Call>
    requires 0 <= s.rep.lastApplied
  {
    if calls == [] then []
    else
      var n := |calls| - 1;
      if IsRepeat(s, calls, n) then WithoutRepeats(s, calls[..n])
      else WithoutRepeats(s, calls[..n]) + [calls[n]]
  }

  /** A success stores its answer under its ID, and a stored answer stays. */
  lemma CloseCaches(s: Primary, c: Call, id: string)
    requires 0 <= s.rep.lastApplied
    ensures var (s', o) := Close(s, c.req, c.order, c.acks);
            && (Cached(s, id) ==> Cached(s', id) && s'.requests[id] == s.requests[id])
            && (o.Returned? ==> Cached(s', c.req.requestId) && s'.requests[c.req.requestId] == CloseResponse(o.version))
            && s'.isPrimary == s.isPrimary && (s.mutexLost ==> s'.mutexLost)
  {
  }

  lemma CachedCloseIsNoop(s: Primary, c: Call)
    requires 0 <= s.rep.lastApplied && Cached(s, c.req.requestId)
    ensures var (s', o) := Close(s, c.req, c.order, c.acks);
            s' == s && (s.isPrimary && !s.mutexLost ==> o == Returned(s.requests[c.req.requestId].version))
  {
  }

  lemma AnswerOfPrefix(s: Primary, calls: seq<Call>, n: nat, j: nat)
    requires 0 <= s.rep.lastApplied && j < n <= |calls|
    ensures Answer(s, calls[..n], j) == Answer(s, calls, j)
  {
    assert calls[..n][..j] == calls[..j];
  }

  lemma RunLast(s: Primary, calls: seq<Call>)
    requires 0 <= s.rep.lastApplied && calls != []
    ensures var n, c := |calls| - 1, calls[|calls| - 1];
            (Run(s, calls), Answer(s, calls, n)) == Close(Run(s, calls[..n]), c.req, c.order, c.acks)
  {
  }

  /** The same for the last call of a run. */
  lemma LastCallCaches(s: Primary, calls: seq<Call>, id: string)
    requires 0 <= s.rep.lastApplied && calls != []
    ensures var n := |calls| - 1;
            var before, after, answer := Run(s, calls[..n]), Run(s, calls), Answer(s, calls, n);
            && (Cached(before, id) ==> Cached(after, id) && after.requests[id] == before.requests[id])
            && (answer.Returned? && calls[n].req.requestId == id ==>
                  Cached(after, id) && after.requests[id] == CloseResponse(answer.version))
  {
    RunLast(s, calls);
    CloseCaches(Run(s, calls[..|calls| - 1]), calls[|calls| - 1], id);
  }

  lemma {:induction false} AnswerStaysCached(s: Primary, calls: seq<Call>, j: nat)
    requires 0 <= s.rep.lastApplied && j < |calls| && Answer(s, calls, j).Returned?
    ensures var s', id := Run(s, calls), calls[j].req.requestId;
            Cached(s', id) && s'.requests[id] == CloseResponse(Answer(s, calls, j).version)
  {
    LastCallCaches(s, calls, calls[j].req.requestId);
    if j < |calls| - 1 {
      AnswerOfPrefix(s, calls, |calls| - 1, j);
      AnswerStaysCached(s, calls[..|calls| - 1], j);
    }
  }

  /** Repeating a request ID that succeeded changes nothing, and gets the first answer
      again unless the server lost its mutex in between. */
  lemma RepeatIsHarmless(s: Primary, calls: seq<Call>, j: nat)
    requires 0 <= s.rep.lastApplied && j < |calls| - 1
    requires calls[j].req.requestId == calls[|calls| - 1].req.requestId && Answer(s, calls, j).Returned?
    ensures var before := Run(s, calls[..|calls| - 1]);
            && Run(s, calls) == before
            && (s.isPrimary && !before.mutexLost ==> Answer(s, calls, |calls| - 1) == Answer(s, calls, j))
  {
    var n := |calls| - 1;
    AnswerOfPrefix(s, calls, n, j);
    AnswerStaysCached(s, calls[..n], j);
    RunLast(s, calls);
    CachedCloseIsNoop(Run(s, calls[..n]), calls[n]);
    RunKeepsRole(s, calls[..n]);
  }

  lemma {:induction false} RunKeepsRole(s: Primary, calls: seq<Call>)
    requires 0 <= s.rep.lastApplied
    ensures Run(s, calls).isPrimary == s.isPrimary
  {
    if calls == [] {
    } else {
      RunLast(s, calls);
      RunKeepsRole(s, calls[..|calls| - 1]);
      CloseCaches(Run(s, calls[..|calls| - 1]), calls[|calls| - 1], "");
    }
  }

  lemma RunSnoc(s: Primary, calls: seq<Call>, c: Call)
    requires 0 <= s.rep.lastApplied
    ensures Run(s, calls + [c]) == Close(Run(s, calls), c.req, c.order, c.acks).0
  {
  }

  /** Log, files, sets, versions and all else end as if the repeats had never been sent. */
  lemma {:induction false} RepeatsCanBeRemoved(s: Primary, calls: seq<Call>)
    requires 0 <= s.rep.lastApplied
    ensures Run(s, WithoutRepeats(s, calls)) == Run(s, calls)
  {
    if calls == [] {
    } else {
      var n := |calls| - 1;
      RepeatsCanBeRemoved(s, calls[..n]);
      if IsRepeat(s, calls, n) {
        var j :| 0 <= j < n && calls[j].req.requestId == calls[n].req.requestId && Answer(s, calls, j).Returned?;
        RepeatIsHarmless(s, calls, j);
      } else {
        RunLast(s, calls);
        RunSnoc(s, WithoutRepeats(s, calls[..n]), calls[n]);
      }
    }
  }

  // ---------- a client that is no longer registered ----------

  /** The exact condition under which a Close makes the server lose its mutex. */
  lemma LosesMutexIff(s: Primary, c: Call)
    requires 0 <= s.rep.lastApplied && !s.mutexLost
    ensures Close(s, c.req, c.order, c.acks).0.mutexLost
            <==> && s.isPrimary && !Cached(s, c.req.requestId)
                 && c.req.fd in s.fds && c.req.client !in s.fds[c.req.fd].clients
  {
  }

  /** Closing again under a new request ID what a client has just closed. */
  lemma SecondCloseHangs(s: Primary, first: Call, second: Call)
    requires 0 <= s.rep.lastApplied && s.isPrimary && !s.mutexLost
    requires !Cached(s, first.req.requestId) && Close(s, first.req, first.order, first.acks).1.Returned?
    requires second.req.fd == first.req.fd && second.req.client == first.req.client
    requires second.req.requestId != first.req.requestId && !Cached(s, second.req.requestId)
    ensures var s' := Close(s, first.req, first.order, first.acks).0;
            0 <= s'.rep.lastApplied && Close(s', second.req, second.order, second.acks).1 == Hung
  {
  }

  /** Once the mutex is lost every later Close hangs and nothing changes any more. */
  lemma {:induction false} MutexLostForever(s: Primary, calls: seq<Call>, i: nat)
    requires 0 <= s.rep.lastApplied && s.isPrimary && s.mutexLost && i < |calls|
    ensures Run(s, calls) == s && Answer(s, calls, i) == Hung
  {
    MutexLostRun(s, calls);
    MutexLostRun(s, calls[..i]);
  }

  lemma {:induction false} MutexLostRun(s: Primary, calls: seq<Call>)
    requires 0 <= s.rep.lastApplied && s.isPrimary && s.mutexLost
    ensures Run(s, calls) == s
  {
    if calls == [] {
    } else {
      MutexLostRun(s, calls[..|calls| - 1]);
    }
  }

  // ---------- what a Close does to the server ----------

  /** The file holds exactly the numbers of its prime set, each once. */
  ghost predicate InStep(s: Primary, name: string) {
    Printed(TextOf(s.rep.files, name), StoredSet(s, name))
  }

  ghost predicate IsMapOrder(order: MapOrder) {
    forall s :: IsOrderOf(order(s), s)
  }

  lemma AnyOrderIsMapOrder()
    ensures IsMapOrder(AnyOrder)
  {
    forall s ensures IsOrderOf(AnyOrder(s), s) {
    }
  }

  /** A dirty Close of an open file that passes all checks. */
  ghost predicate Admitted(s: Primary, req: CloseRequest, name: string) {
    && s.isPrimary && !s.mutexLost && !Cached(s, req.requestId) && req.dirty
    && req.fd in s.fds && s.fds[req.fd].filename == name
    && req.client in s.fds[req.fd].clients && s.fds[req.fd].clients[req.client] == WriteMode
    && req.version == Touch(s.versions, name)[name]
  }

  /** The entry an admitted Close logs. */
  function EntryOf(s: Primary, c: Call, name: string): LogEntry {
    NewEntry(s, name, Touch(s.versions, name)[name], c.req.data, c.order)
  }

  lemma EntryPrinted(s: Primary, c: Call, name: string)
    requires IsMapOrder(c.order)
    ensures Printed(EntryOf(s, c, name).content, StoredSet(s, name) + Stored(c.req.data))
  {
    var temp := StoredSet(s, name) + Stored(c.req.data);
    PrintedSet(c.order(temp), temp);
  }

  /** The version a file has, 1 when it is not known yet. */
  function VersionOf(s: Primary, name: string): int32 {
    if name in s.versions then s.versions[name] else 1
  }

  /** A dirty Close that was not answered before succeeds exactly when the primary can answer, the
      client has the file open for writing, its version is the current one, and the server itself
      and the positive answers are more than half of the cluster. */
  lemma DirtyCloseReturnsIff(s: Primary, c: Call)
    requires 0 <= s.rep.lastApplied && !Cached(s, c.req.requestId) && c.req.dirty
    ensures Close(s, c.req, c.order, c.acks).1.Returned?
            <==> && s.isPrimary && !s.mutexLost
                 && c.req.fd in s.fds && c.req.client in s.fds[c.req.fd].clients
                 && s.fds[c.req.fd].clients[c.req.client] == WriteMode
                 && c.req.version == VersionOf(s, s.fds[c.req.fd].filename)
                 && 1 + multiset(c.acks)[true] >= s.clusterSize / 2 + 1
  {
  }

  /** The call gets past the role test, the request cache and both look-ups. */
  ghost predicate IsServed(s: Primary, req: CloseRequest) {
    && s.isPrimary && !s.mutexLost && !Cached(s, req.requestId)
    && req.fd in s.fds && req.client in s.fds[req.fd].clients
  }

  /** Which rejection a Close gets. */
  lemma RejectedIff(s: Primary, c: Call)
    requires 0 <= s.rep.lastApplied
    ensures var o := Close(s, c.req, c.order, c.acks).1;
            && (o == Rejected(NotLeader) <==> !s.isPrimary)
            && (o == Rejected(NotFound)
                <==> s.isPrimary && !s.mutexLost && !Cached(s, c.req.requestId) && c.req.fd !in s.fds)
            && (o in {Rejected(PermissionDenied), Rejected(Aborted), Rejected(Unavailable)} ==>
                  IsServed(s, c.req) && c.req.dirty)
            && (IsServed(s, c.req) && c.req.dirty ==>
                  var mode := s.fds[c.req.fd].clients[c.req.client];
                  var current := VersionOf(s, s.fds[c.req.fd].filename);
                  && (o == Rejected(PermissionDenied) <==> mode != WriteMode)
                  && (o == Rejected(Aborted) <==> mode == WriteMode && c.req.version != current)
                  && (o == Rejected(Unavailable)
                      <==> && mode == WriteMode && c.req.version == current
                           && 1 + multiset(c.acks)[true] <= s.clusterSize / 2))
  {
  }

  /** A Close that is not dirty always succeeds with the current version. It takes the client off
      the file, whatever mode it had, stores the answer, and changes nothing else but to give a
      file that was not known its first version. */
  lemma CleanClose(s: Primary, c: Call)
    requires 0 <= s.rep.lastApplied && IsServed(s, c.req) && !c.req.dirty
    ensures var (s', o) := Close(s, c.req, c.order, c.acks);
            var file := s.fds[c.req.fd];
            var version := VersionOf(s, file.filename);
            && o == Returned(version)
            && s' == s.(versions := s.versions[file.filename := version],
                        fds := s.fds[c.req.fd := file.(clients := file.clients - {c.req.client})],
                        requests := s.requests[c.req.requestId := CloseResponse(version)])
  {
    var name := s.fds[c.req.fd].filename;
    assert Touch(s.versions, name) == s.versions[name := VersionOf(s, name)];
  }

  /** What a committed Close does, in terms of the entry it logs. */
  lemma CommittedShape(s: Primary, c: Call, g: string)
    requires 0 <= s.rep.lastApplied && Admitted(s, c.req, g) && ReachesMajority(s, c.acks)
    ensures var (s', o) := Close(s, c.req, c.order, c.acks);
            var e := EntryOf(s, c, g);
            var file := s.fds[c.req.fd];
            && o == Returned(e.version)
            && s' == s.(rep := ApplyCommitted(Logged(s.rep, e).(commitIndex := |s.rep.log| + 1)),
                        sets := s.sets[g := StoredSet(s, g) + Stored(c.req.data)],
                        versions := s.versions[g := e.version],
                        fds := s.fds[c.req.fd := file.(clients := file.clients - {c.req.client})],
                        requests := s.requests[c.req.requestId := CloseResponse(e.version)])
  {
    assert Touch(s.versions, g)[g := EntryOf(s, c, g).version] == s.versions[g := EntryOf(s, c, g).version];
  }

  /** A committed Close: its numbers join the set, the set printed once joins the log, and log,
      version, registration and request cache move on together. The file becomes that text,
      whatever the log held unapplied, unless lastApplied lies beyond the end of the log. */
  lemma CommittedClose(s: Primary, c: Call, name: string)
    requires 0 <= s.rep.lastApplied && IsMapOrder(c.order)
    requires Admitted(s, c.req, name) && 1 + multiset(c.acks)[true] >= s.clusterSize / 2 + 1
    ensures var (s', o) := Close(s, c.req, c.order, c.acks);
            var e := s'.rep.log[|s'.rep.log| - 1];
            && StoredSet(s', name) == StoredSet(s, name) + Stored(c.req.data)
            && (forall other :: other != name ==> StoredSet(s', other) == StoredSet(s, other))
            && s'.rep.log == s.rep.log + [e] && s'.rep.disk == s.rep.disk + [e]
            && e.index == |s'.rep.log| == s'.rep.commitIndex && e.op == "WRITE" && e.filename == name
            && Printed(e.content, StoredSet(s', name))
            && o == Returned(e.version) && e.version == Inc32(Touch(s.versions, name)[name])
            && s'.versions == s.versions[name := e.version]
            && c.req.client !in s'.fds[c.req.fd].clients && s'.requests[c.req.requestId] == CloseResponse(e.version)
            && if s.rep.lastApplied <= |s.rep.log| then
                 TextOf(s'.rep.files, name) == e.content && s'.rep.lastApplied == e.index
               else
                 s'.rep.files == s.rep.files && s'.rep.lastApplied == s.rep.lastApplied
  {
    CommittedShape(s, c, name);
    ApplyToEnd(Logged(s.rep, EntryOf(s, c, name)));
    EntryPrinted(s, c, name);
  }

  /** After a committed Close file and set agree exactly when lastApplied did not lie beyond the
      end of the log, or the file happened to hold the new set already. */
  lemma CommittedCloseInStepIff(s: Primary, c: Call, name: string)
    requires 0 <= s.rep.lastApplied && IsMapOrder(c.order)
    requires Admitted(s, c.req, name) && 1 + multiset(c.acks)[true] >= s.clusterSize / 2 + 1
    ensures InStep(Close(s, c.req, c.order, c.acks).0, name)
            <==> s.rep.lastApplied <= |s.rep.log|
                 || Printed(TextOf(s.rep.files, name), StoredSet(s, name) + Stored(c.req.data))
  {
    CommittedClose(s, c, name);
  }

  /** The whole state after a Close that does not succeed: only one that missed its majority
      leaves an entry in the log, and only one without a registration loses the mutex. */
  lemma FailedClose(s: Primary, c: Call)
    requires 0 <= s.rep.lastApplied && !Close(s, c.req, c.order, c.acks).1.Returned?
    ensures var (s', o) := Close(s, c.req, c.order, c.acks);
            match o
            case Hung => s' == s.(mutexLost := true)
            case Rejected(NotLeader) => s' == s && !s.isPrimary
            case Rejected(NotFound) => s' == s && c.req.fd !in s.fds
            case Rejected(error) =>
              && c.req.fd in s.fds
              && var name := s.fds[c.req.fd].filename;
              && (error == Unavailable <==> Admitted(s, c.req, name))
              && s' == s.(versions := Touch(s.versions, name),
                          rep := if error == Unavailable then Logged(s.rep, EntryOf(s, c, name)) else s.rep)
  {
  }
}
