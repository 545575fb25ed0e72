/**
 Several servers without any discipline: any server may act as primary at any time,
 messages are lost, duplicated, reordered and delivered with gaps, commit indices and log
 indices are arbitrary, servers crash in the middle of a recovery and are overwritten by
 full synchronisations. As long as every write goes through Close, no log, message or file
 ever holds a number twice.
 */
module NoRepeatsAnywhere {
  import opened Base
  import opened NumberText
  import opened PrimeSets
  import opened Replication

  type Id = nat

  datatype Node = Node(rep: Replica, sets: map<string, set<uint64>>)

  /** sent are the entries, syncs the file copies that were ever put on the network. */
  datatype State = State(nodes: map<Id, Node>, sent: set<LogEntry>, syncs: set<seq<(string, string)>>)

  datatype Action =
    | CloseAt(id: Id, name: string, data: string, order: seq<uint64>, index: int, version: int)
    | CommitAt(id: Id, index: int)
    | InstallAt(id: Id, name: string, numbers: set<uint64>)
    | RebuildAt(id: Id, name: string)
    | Resend(id: Id, position: nat)
    | DeliverAppend(id: Id, entries: seq<LogEntry>, commit: int)
    | DeliverUpdate(id: Id, entries: seq<LogEntry>)
    | OfferSync(id: Id, names: seq<string>)
    | DeliverSync(id: Id, copies: seq<(string, string)>)
    | CrashDuringRecovery(id: Id, replayed: nat)
    | RestartAt(id: Id)

  ghost predicate FromNetwork(s: State, entries: seq<LogEntry>) {
    forall i :: 0 <= i < |entries| ==> entries[i] in s.sent
  }

  ghost predicate Enabled(s: State, a: Action) {
    && a.id in s.nodes && 0 <= s.nodes[a.id].rep.lastApplied
    && var n := s.nodes[a.id];
    match a
    case CloseAt(_, name, data, order, _, _) => IsOrderOf(order, SetFor(n.sets, name) + SetOf(Parsed(data)))
    case CommitAt(_, _) => true
    case InstallAt(_, _, _) => true
    case RebuildAt(_, name) => name in n.rep.files
    case Resend(_, k) => k < |n.rep.log|
    case DeliverAppend(_, entries, _) => FromNetwork(s, entries)
    case DeliverUpdate(_, entries) => FromNetwork(s, entries)
    case OfferSync(_, names) => forall i :: 0 <= i < |names| ==> names[i] in n.rep.files
    case DeliverSync(_, copies) => copies in s.syncs
    case CrashDuringRecovery(_, k) => k <= |n.rep.disk|
    case RestartAt(_) => true
  }

  ghost function Put(s: State, id: Id, rep: Replica): State
    requires id in s.nodes
  {
    s.(nodes := s.nodes[id := s.nodes[id].(rep := rep)])
  }

  ghost function Next(s: State, a: Action): State
    requires Enabled(s, a)
  {
    var n := s.nodes[a.id];
    match a
    case CloseAt(id, name, _, order, index, version) =>
      var e := LogEntry(index, "WRITE", name, Lines(order), version);
      Put(s, id, n.rep.(log := n.rep.log + [e], disk := n.rep.disk + [e])).(sent := s.sent + {e})
    case CommitAt(id, index) => Put(s, id, ApplyCommitted(n.rep.(commitIndex := index)))
    case InstallAt(id, name, numbers) => s.(nodes := s.nodes[id := n.(sets := n.sets[name := numbers])])
    case RebuildAt(id, name) => s.(nodes := s.nodes[id := n.(sets := n.sets[name := Stored(n.rep.files[name])])])
    case Resend(_, k) => s.(sent := s.sent + {n.rep.log[k]})
    case DeliverAppend(id, entries, commit) => Put(s, id, AppendEntries(n.rep, entries, commit))
    case DeliverUpdate(id, entries) =>
      CatchUpGrows(n.rep.log, entries);
      var log := CatchUp(n.rep.log, entries).0;
      Put(s, id, n.rep.(log := log, disk := n.rep.disk + log[|n.rep.log|..]))
    case OfferSync(_, names) =>
      s.(syncs := s.syncs + {seq(|names|, i requires 0 <= i < |names| => (names[i], n.rep.files[names[i]]))})
    case DeliverSync(id, copies) => Put(s, id, FullSync(n.rep, copies))
    case CrashDuringRecovery(id, k) =>
      s.(nodes := s.nodes[id := Node(Crash(n.rep).(files := Replay(n.rep.files, n.rep.disk[..k])), map[])])
    case RestartAt(id) => s.(nodes := s.nodes[id := Node(Recover(Crash(n.rep)), map[])])
  }

  ghost function After(s: State, actions: seq<Action>): State {
    if actions == [] then s
    else
      var before, a := After(s, actions[..|actions| - 1]), actions[|actions| - 1];
      if Enabled(before, a) then Next(before, a) else before
  }

  // ---------- the invariant ----------

  ghost predicate CleanLog(log: seq<LogEntry>) {
    forall i :: 0 <= i < |log| ==> RepeatFree(log[i].content)
  }

  ghost predicate CleanFiles(files: Files) {
    forall name :: name in files ==> RepeatFree(files[name])
  }

  ghost predicate CleanCopies(copies: seq<(string, string)>) {
    forall i :: 0 <= i < |copies| ==> RepeatFree(copies[i].1)
  }

  ghost predicate CleanReplica(r: Replica) {
    0 <= r.lastApplied && CleanLog(r.log) && CleanLog(r.disk) && CleanFiles(r.files)
  }

  ghost predicate Clean(s: State) {
    && (forall id :: id in s.nodes ==> CleanReplica(s.nodes[id].rep))
    && (forall e :: e in s.sent ==> RepeatFree(e.content))
    && (forall c :: c in s.syncs ==> CleanCopies(c))
  }

  lemma {:induction false} ReplayClean(files: Files, entries: seq<LogEntry>)
    requires CleanFiles(files) && CleanLog(entries)
    ensures CleanFiles(Replay(files, entries))
  {
    if entries == [] {
    } else {
      ReplayClean(files, entries[..|entries| - 1]);
    }
  }

  lemma {:induction false} AppendNewClean(log: seq<LogEntry>, entries: seq<LogEntry>)
    requires CleanLog(log) && CleanLog(entries)
    ensures CleanLog(AppendNew(log, entries))
  {
    if entries == [] {
    } else {
      AppendNewClean(log, entries[..|entries| - 1]);
    }
  }

  lemma {:induction false} CatchUpClean(log: seq<LogEntry>, entries: seq<LogEntry>)
    requires CleanLog(log) && CleanLog(entries)
    ensures CleanLog(CatchUp(log, entries).0)
    decreases entries
  {
    if entries == [] {
    } else {
      if entries[0].index <= |log| {
        CatchUpClean(log, entries[1..]);
      } else if entries[0].index == |log| + 1 {
        CatchUpClean(log + [entries[0]], entries[1..]);
      }
    }
  }

  lemma {:induction false} OverwriteClean(files: Files, copies: seq<(string, string)>)
    requires CleanFiles(files) && CleanCopies(copies)
    ensures CleanFiles(OverwriteAll(files, copies))
  {
    if copies == [] {
    } else {
      OverwriteClean(files, copies[..|copies| - 1]);
    }
  }

  lemma ApplyCommittedClean(r: Replica)
    requires CleanReplica(r)
    ensures CleanReplica(ApplyCommitted(r))
  {
    var target := Min(r.commitIndex, |r.log|);
    if r.lastApplied < target { ReplayClean(r.files, r.log[r.lastApplied..target]); }
  }

  lemma AppendEntriesClean(r: Replica, entries: seq<LogEntry>, commit: int)
    requires CleanReplica(r) && CleanLog(entries)
    ensures CleanReplica(AppendEntries(r, entries, commit))
  {
    AppendNewClean(r.log, entries);
    AppendNewExtends(r.log, entries);
    var log := AppendNew(r.log, entries);
    ApplyCommittedClean(r.(log := log,
                           disk := r.disk + log[|r.log|..],
                           commitIndex := Max(r.commitIndex, commit)));
  }

  lemma {:induction false} HighestAtLeast(c: int, entries: seq<LogEntry>)
    ensures c <= HighestIndex(c, entries)
  {
    if entries == [] {
    } else {
      HighestAtLeast(c, entries[..|entries| - 1]);
    }
  }

  lemma RestartClean(r: Replica)
    requires CleanReplica(r)
    ensures CleanReplica(Recover(Crash(r)))
  {
    ReplayClean(r.files, r.disk);
    HighestAtLeast(0, r.disk);
  }

  /** What the action leaves on the server it runs on. */
  lemma NodeStaysClean(s: State, a: Action)
    requires Clean(s) && Enabled(s, a)
    ensures a.id in Next(s, a).nodes && CleanReplica(Next(s, a).nodes[a.id].rep)
  {
    var r := s.nodes[a.id].rep;
    match a
    case CloseAt(_, name, data, order, _, _) =>
      PrintedSet(order, SetFor(s.nodes[a.id].sets, name) + SetOf(Parsed(data)));
    case CommitAt(_, index) => ApplyCommittedClean(r.(commitIndex := index));
    case InstallAt(_, _, _) =>
    case RebuildAt(_, _) =>
    case Resend(_, _) =>
    case DeliverAppend(_, entries, commit) => AppendEntriesClean(r, entries, commit);
    case DeliverUpdate(_, entries) =>
      CatchUpClean(r.log, entries);
      CatchUpGrows(r.log, entries);
    case OfferSync(_, _) =>
    case DeliverSync(_, copies) => OverwriteClean(r.files, copies);
    case CrashDuringRecovery(_, k) => ReplayClean(r.files, r.disk[..k]);
    case RestartAt(_) => RestartClean(r);
  }

  lemma NextStaysClean(s: State, a: Action)
    requires Clean(s) && Enabled(s, a)
    ensures Clean(Next(s, a))
  {
    NodeStaysClean(s, a);
    if a.CloseAt? {
      PrintedSet(a.order, SetFor(s.nodes[a.id].sets, a.name) + SetOf(Parsed(a.data)));
    }
  }

  /** In every run from repeat-free files, everything everywhere stays repeat-free. */
  lemma {:induction false} EveryRunIsRepeatFree(s: State, actions: seq<Action>)
    requires Clean(s)
    ensures Clean(After(s, actions))
  {
    if actions == [] {
    } else {
      var before, a := After(s, actions[..|actions| - 1]), actions[|actions| - 1];
      EveryRunIsRepeatFree(s, actions[..|actions| - 1]);
      if Enabled(before, a) { NextStaysClean(before, a); }
    }
  }

  // ---------- a number on its way through three servers ----------

  lemma OneMore(s: State, actions: seq<Action>, m: State, a: Action, m': State)
    requires After(s, actions) == m && Enabled(m, a) && Next(m, a) == m'
    ensures After(s, actions + [a]) == m'
  {
    assert (actions + [a])[..|actions|] == actions;
  }

  /** A server that has only these files. */
  function With(files: Files): Node {
    Node(Replica([], 0, 0, files, []), map[])
  }

  /** A server that has applied one entry. */
  function Holding(e: LogEntry): Node {
    Node(Replica([e], 1, 1, map[e.filename := e.content], [e]), map[])
  }

  ghost function Servers(a: Node, b: Node, c: Node, sent: set<LogEntry>, syncs: set<seq<(string, string)>>): State {
    State(map[0 := a, 1 := b, 2 := c], sent, syncs)
  }

  lemma CloseStep(b: Node, c: Node, data: string, order: seq<uint64>, e: LogEntry)
    requires IsOrderOf(order, SetOf(Parsed(data))) && e == LogEntry(1, "WRITE", e.filename, Lines(order), e.version)
    ensures var s := Servers(With(map[]), b, c, {}, {});
            var a := CloseAt(0, e.filename, data, order, 1, e.version);
            && Enabled(s, a)
            && Next(s, a) == Servers(Node(Replica([e], 0, 0, map[], [e]), map[]), b, c, {e}, {})
  {
    assert SetFor(map[], e.filename) + SetOf(Parsed(data)) == SetOf(Parsed(data));
    assert [] + [e] == [e] && {} + {e} == {e};
  }

  lemma DeliverStep(a: Node, c: Node, e: LogEntry)
    requires e.index == 1 && e.op == "WRITE"
    ensures var s := Servers(a, With(map[]), c, {e}, {});
            && Enabled(s, DeliverAppend(1, [e], 1))
            && Next(s, DeliverAppend(1, [e], 1)) == Servers(a, Holding(e), c, {e}, {})
  {
    AppendOne([], e);
    ReplayOne(map[], e);
    assert [] + [e] == [e] && [e][0..] == [e] && [e][0..1] == [e];
  }

  lemma OfferStep(a: Node, c: Node, e: LogEntry)
    ensures var s := Servers(a, Holding(e), c, {e}, {});
            && Enabled(s, OfferSync(1, [e.filename]))
            && Next(s, OfferSync(1, [e.filename])) == Servers(a, Holding(e), c, {e}, {[(e.filename, e.content)]})
  {
    var n, names := Holding(e), [e.filename];
    var copies := seq(|names|, i requires 0 <= i < |names| => (names[i], n.rep.files[names[i]]));
    assert copies == [(e.filename, e.content)];
    assert {} + {copies} == {copies};
  }

  lemma SyncStep(a: Node, b: Node, e: LogEntry)
    ensures var copies := [(e.filename, e.content)];
            var s := Servers(a, b, With(map[]), {e}, {copies});
            && Enabled(s, DeliverSync(2, copies))
            && Next(s, DeliverSync(2, copies)) == Servers(a, b, With(map[e.filename := e.content]), {e}, {copies})
  {
    var copies := [(e.filename, e.content)];
    assert copies[..0] == [];
    assert OverwriteAll(map[], copies) == map[e.filename := e.content];
  }

  /** s' is what action a makes of s. */
  ghost predicate Leads(s: State, a: Action, s': State) {
    Enabled(s, a) && Next(s, a) == s'
  }

  lemma FourActions(s: State, a0: Action, s1: State, a1: Action, s2: State,
                    a2: Action, s3: State, a3: Action, s4: State)
    requires Leads(s, a0, s1) && Leads(s1, a1, s2) && Leads(s2, a2, s3) && Leads(s3, a3, s4)
    ensures After(s, [] + [a0] + [a1] + [a2] + [a3]) == s4
  {
    OneMore(s, [], s, a0, s1);
    OneMore(s, [] + [a0], s1, a1, s2);
    OneMore(s, [] + [a0] + [a1], s2, a2, s3);
    OneMore(s, [] + [a0] + [a1] + [a2], s3, a3, s4);
  }

  /** A Close on one server reaches the file of a second by replication, and that of a third by a
      full synchronisation from the second. */
  lemma NumbersTravel(data: string, order: seq<uint64>, e: LogEntry)
    requires IsOrderOf(order, SetOf(Parsed(data))) && e == LogEntry(1, "WRITE", e.filename, Lines(order), e.version)
    ensures var start := Servers(With(map[]), With(map[]), With(map[]), {}, {});
            var copies := [(e.filename, e.content)];
            && Stored(e.content) == Stored(data)
            && After(start, [] + [CloseAt(0, e.filename, data, order, 1, e.version)] + [DeliverAppend(1, [e], 1)]
                            + [OfferSync(1, [e.filename])] + [DeliverSync(2, copies)])
               == Servers(Node(Replica([e], 0, 0, map[], [e]), map[]), Holding(e), With(map[e.filename := e.content]),
                          {e}, {copies})
  {
    var none, logged := With(map[]), Node(Replica([e], 0, 0, map[], [e]), map[]);
    var copies := [(e.filename, e.content)];
    CloseStep(none, none, data, order, e);
    DeliverStep(logged, none, e);
    OfferStep(logged, none, e);
    SyncStep(logged, Holding(e), e);
    FourActions(Servers(none, none, none, {}, {}),
                CloseAt(0, e.filename, data, order, 1, e.version), Servers(logged, none, none, {e}, {}),
                DeliverAppend(1, [e], 1), Servers(logged, Holding(e), none, {e}, {}),
                OfferSync(1, [e.filename]), Servers(logged, Holding(e), none, {e}, {copies}),
                DeliverSync(2, copies), Servers(logged, Holding(e), With(map[e.filename := e.content]), {e}, {copies}));
    PrintedSet(order, SetOf(Parsed(data)));
  }
}
