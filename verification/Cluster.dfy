/**
 A primary and its backups (server_replication.go with the replication half of Close):
 messages may be lost, duplicated, delayed and resent, servers crash and restart from
 their log file, and one Close is in flight at a time. A backup is never handed an
 entry before the entry's predecessor.
 */
module Cluster {
  import opened Base
  import opened Replication

  type Id = nat

  datatype Node = Node(up: bool, rep: Replica)

  /** sendAppendEntry carries one entry and the sender's commit index. */
  datatype Message = Message(to: Id, entry: LogEntry, commit: int)

  /** The Close that waits for acknowledgements, with the peers that acknowledged. */
  datatype Flight = NoFlight | Flight(entry: LogEntry, acks: set<Id>)

  /** sent and acked only grow: a message not delivered is lost, one delivered again duplicated. */
  datatype State = State(nodes: map<Id, Node>, sent: set<Message>, acked: set<(Id, int)>, flight: Flight)

  datatype Action =
    | StartClose(filename: string, content: string, version: int)
    | Deliver(message: Message)
    | TakeAck(peer: Id)
    | Commit
    | GiveUp
    | CrashNode(id: Id)
    | CrashInRecovery(id: Id, replayed: nat)
    | Restart(id: Id)

  function Majority(s: State): nat {
    |s.nodes| / 2 + 1
  }

  /** One message to every other member. */
  function Sends(members: set<Id>, primary: Id, e: LogEntry, commit: int): set<Message> {
    set b | b in members && b != primary :: Message(b, e, commit)
  }

  predicate Enabled(primary: Id, s: State, a: Action) {
    match a
    case StartClose(_, _, _) => primary in s.nodes && s.nodes[primary].up && s.flight.NoFlight?
    case Deliver(m) =>
      && m in s.sent && m.to in s.nodes && s.nodes[m.to].up && 0 <= s.nodes[m.to].rep.lastApplied
      && m.entry.index <= |s.nodes[m.to].rep.log| + 1
    case TakeAck(b) => s.flight.Flight? && b != primary && (b, s.flight.entry.index) in s.acked
    case Commit =>
      && s.flight.Flight? && 1 + |s.flight.acks| >= Majority(s)
      && primary in s.nodes && 0 <= s.nodes[primary].rep.lastApplied
    case GiveUp => s.flight.Flight? && 1 + |s.flight.acks| < Majority(s)
    case CrashNode(i) => i in s.nodes && s.nodes[i].up
    case CrashInRecovery(i, k) => i in s.nodes && !s.nodes[i].up && k <= |s.nodes[i].rep.disk|
    case Restart(i) => i in s.nodes && !s.nodes[i].up
  }

  function Next(primary: Id, s: State, a: Action): State
    requires Enabled(primary, s, a)
  {
    match a
    case StartClose(filename, content, version) =>
      var r := s.nodes[primary].rep;
      var e := LogEntry(|r.log| + 1, "WRITE", filename, content, version);
      s.(nodes := s.nodes[primary := Node(true, r.(log := r.log + [e], disk := r.disk + [e]))],
         sent := s.sent + Sends(s.nodes.Keys, primary, e, r.commitIndex),
         flight := Flight(e, {}))
    case Deliver(m) =>
      s.(nodes := s.nodes[m.to := Node(true, AppendEntries(s.nodes[m.to].rep, [m.entry], m.commit))],
         acked := s.acked + {(m.to, m.entry.index)})
    case TakeAck(b) => s.(flight := s.flight.(acks := s.flight.acks + {b}))
    case Commit =>
      var r := s.nodes[primary].rep;
      var e := s.flight.entry;
      s.(nodes := s.nodes[primary := Node(true, ApplyCommitted(r.(commitIndex := e.index)))],
         sent := s.sent + Sends(s.nodes.Keys, primary, e, e.index),
         flight := NoFlight)
    case GiveUp => s.(flight := NoFlight)
    case CrashNode(i) =>
      s.(nodes := s.nodes[i := Node(false, Crash(s.nodes[i].rep))],
         flight := if i == primary then NoFlight else s.flight)
    case CrashInRecovery(i, k) =>
      var r := s.nodes[i].rep;
      s.(nodes := s.nodes[i := Node(false, r.(files := Replay(r.files, r.disk[..k])))])
    case Restart(i) => s.(nodes := s.nodes[i := Node(true, Recover(s.nodes[i].rep))])
  }

  /** The state after a list of actions; actions that are not enabled do nothing. */
  function After(primary: Id, s: State, actions: seq<Action>): State {
    if actions == [] then s
    else
      var before, a := After(primary, s, actions[..|actions| - 1]), actions[|actions| - 1];
      if Enabled(primary, before, a) then Next(primary, before, a) else before
  }

  /** Servers that start with empty logs and the same files. */
  ghost predicate Start(primary: Id, initial: Files, s: State) {
    && primary in s.nodes && s.sent == {} && s.acked == {} && s.flight == NoFlight
    && forall i :: i in s.nodes ==> s.nodes[i] == Node(true, Replica([], 0, 0, initial, []))
  }

  // ---------- the invariant ----------

  /** A node's log is a prefix of the primary's and its files are a replay of that prefix. */
  ghost predicate NodeOk(n: Node, initial: Files, leader: seq<LogEntry>) {
    && n.rep.disk <= leader
    && (n.up ==> n.rep.log == n.rep.disk && Consistent(n.rep, initial))
    && (!n.up ==> n.rep == Crash(n.rep) && Between(n.rep.files, initial, n.rep.disk))
  }

  ghost predicate NodesOk(nodes: map<Id, Node>, initial: Files, leader: seq<LogEntry>) {
    forall i :: i in nodes ==> NodeOk(nodes[i], initial, leader)
  }

  ghost predicate MessageOk(m: Message, members: set<Id>, primary: Id, leader: seq<LogEntry>) {
    && m.to in members && m.to != primary
    && 1 <= m.entry.index <= |leader| && m.entry == leader[m.entry.index - 1]
  }

  ghost predicate MessagesOk(sent: set<Message>, members: set<Id>, primary: Id, leader: seq<LogEntry>) {
    forall m :: m in sent ==> MessageOk(m, members, primary, leader)
  }

  ghost predicate HoldsUpTo(nodes: map<Id, Node>, b: Id, k: int) {
    b in nodes && k <= |nodes[b].rep.disk|
  }

  ghost predicate AcksOk(acked: set<(Id, int)>, nodes: map<Id, Node>) {
    forall b, k :: (b, k) in acked ==> HoldsUpTo(nodes, b, k)
  }

  ghost predicate FlightOk(flight: Flight, nodes: map<Id, Node>, primary: Id, leader: seq<LogEntry>) {
    flight.Flight? ==>
      && primary in nodes && nodes[primary].up
      && leader != [] && flight.entry == leader[|leader| - 1] && flight.entry.index == |leader|
      && primary !in flight.acks
      && forall b :: b in flight.acks ==> HoldsUpTo(nodes, b, |leader|)
  }

  ghost function Leader(primary: Id, s: State): seq<LogEntry>
    requires primary in s.nodes
  {
    s.nodes[primary].rep.disk
  }

  ghost predicate Inv(primary: Id, initial: Files, s: State) {
    && primary in s.nodes
    && var leader := Leader(primary, s);
    && Dense(leader)
    && s.nodes[primary].rep.commitIndex <= |leader|
    && NodesOk(s.nodes, initial, leader)
    && MessagesOk(s.sent, s.nodes.Keys, primary, leader)
    && AcksOk(s.acked, s.nodes)
    && FlightOk(s.flight, s.nodes, primary, leader)
  }

  /** The servers whose log file reaches index k. */
  ghost function Holders(s: State, k: int): set<Id> {
    set b | b in s.nodes && k <= |s.nodes[b].rep.disk|
  }

  /** Everything the primary calls committed is on a majority of log files. */
  ghost predicate Quorum(primary: Id, s: State) {
    primary in s.nodes && s.nodes[primary].up ==> |Holders(s, s.nodes[primary].rep.commitIndex)| >= Majority(s)
  }

  lemma StartIsInv(primary: Id, initial: Files, s: State)
    requires Start(primary, initial, s)
    ensures Inv(primary, initial, s) && Quorum(primary, s)
  {
    assert Holders(s, 0) == s.nodes.Keys;
  }

  /** A longer primary log keeps what is known of nodes and messages. */
  lemma LongerLeader(nodes: map<Id, Node>, sent: set<Message>, initial: Files, primary: Id,
                     leader: seq<LogEntry>, longer: seq<LogEntry>)
    requires NodesOk(nodes, initial, leader) && MessagesOk(sent, nodes.Keys, primary, leader) && leader <= longer
    ensures NodesOk(nodes, initial, longer) && MessagesOk(sent, nodes.Keys, primary, longer)
  {
    forall i | i in nodes ensures NodeOk(nodes[i], initial, longer) {
      assert NodeOk(nodes[i], initial, leader);
    }
    forall m | m in sent ensures MessageOk(m, nodes.Keys, primary, longer) {
      assert MessageOk(m, nodes.Keys, primary, leader);
    }
  }

  lemma SendsOk(sent: set<Message>, members: set<Id>, primary: Id, leader: seq<LogEntry>, k: int, commit: int)
    requires MessagesOk(sent, members, primary, leader) && 1 <= k <= |leader| && leader[k - 1].index == k
    ensures MessagesOk(sent + Sends(members, primary, leader[k - 1], commit), members, primary, leader)
  {
  }

  lemma ReplaceNodeNodes(nodes: map<Id, Node>, initial: Files, leader: seq<LogEntry>, i: Id, n: Node)
    requires NodesOk(nodes, initial, leader) && NodeOk(n, initial, leader)
    ensures NodesOk(nodes[i := n], initial, leader)
  {
  }

  /** What replacing one node by one that holds at least as much does to acknowledgements. */
  lemma ReplaceNodeAcks(acked: set<(Id, int)>, nodes: map<Id, Node>, i: Id, n: Node)
    requires AcksOk(acked, nodes) && i in nodes && |nodes[i].rep.disk| <= |n.rep.disk|
    ensures AcksOk(acked, nodes[i := n])
  {
    forall b, k | (b, k) in acked ensures HoldsUpTo(nodes[i := n], b, k) {
      assert HoldsUpTo(nodes, b, k);
    }
  }

  lemma ReplaceNodeFlight(flight: Flight, nodes: map<Id, Node>, primary: Id, leader: seq<LogEntry>, i: Id, n: Node)
    requires FlightOk(flight, nodes, primary, leader) && i in nodes && |nodes[i].rep.disk| <= |n.rep.disk|
    requires i == primary ==> n.up || flight.NoFlight?
    ensures FlightOk(flight, nodes[i := n], primary, leader)
  {
    forall b | flight.Flight? && b in flight.acks ensures HoldsUpTo(nodes[i := n], b, |leader|) {
      assert HoldsUpTo(nodes, b, |leader|);
    }
  }

  lemma ReplaceNodeKeeps(primary: Id, initial: Files, s: State, i: Id, n: Node)
    requires Inv(primary, initial, s) && i in s.nodes && NodeOk(n, initial, Leader(primary, s))
    requires s.nodes[i].rep.disk <= n.rep.disk
    requires i == primary ==> n.rep.commitIndex <= |n.rep.disk| && (n.up || s.flight.NoFlight?)
    ensures Inv(primary, initial, s.(nodes := s.nodes[i := n]))
    ensures Leader(primary, s.(nodes := s.nodes[i := n])) == Leader(primary, s)
    ensures s.nodes[i := n].Keys == s.nodes.Keys
  {
    var leader := Leader(primary, s);
    assert n.rep.disk <= leader && (i == primary ==> n.rep.disk == leader);
    assert s.nodes[i := n].Keys == s.nodes.Keys;
    ReplaceNodeNodes(s.nodes, initial, leader, i, n);
    ReplaceNodeAcks(s.acked, s.nodes, i, n);
    ReplaceNodeFlight(s.flight, s.nodes, primary, leader, i, n);
  }

  lemma StartCloseKeeps(primary: Id, initial: Files, s: State, a: Action)
    requires Inv(primary, initial, s) && a.StartClose? && Enabled(primary, s, a)
    ensures Inv(primary, initial, Next(primary, s, a))
  {
    var s' := Next(primary, s, a);
    var r, r' := s.nodes[primary].rep, s'.nodes[primary].rep;
    LongerLeader(s.nodes, s.sent, initial, primary, r.disk, r'.disk);
    assert r'.log[..r.lastApplied] == r.log[..r.lastApplied];
    assert NodeOk(s'.nodes[primary], initial, r'.disk);
    assert s'.nodes.Keys == s.nodes.Keys;
    SendsOk(s.sent, s.nodes.Keys, primary, r'.disk, |r'.disk|, r.commitIndex);
    ReplaceNodeAcks(s.acked, s.nodes, primary, s'.nodes[primary]);
  }

  lemma DeliveredNodeOk(r: Replica, initial: Files, leader: seq<LogEntry>, e: LogEntry, commit: int)
    requires NodeOk(Node(true, r), initial, leader) && Dense(leader)
    requires 1 <= e.index <= |leader| && e == leader[e.index - 1] && e.index <= |r.log| + 1
    ensures var r' := AppendEntries(r, [e], commit);
            NodeOk(Node(true, r'), initial, leader) && r.disk <= r'.disk && e.index <= |r'.disk|
  {
    AppendEntriesConsistent(r, initial, Request([e], commit));
    AppendKeepsPrefixIff(r.log, leader, e);
    AppendNewExtends(r.log, [e]);
    var log := AppendNew(r.log, [e]);
    assert [e][..0] == [];
    assert r.log + log[|r.log|..] == log;
  }

  lemma AckAdded(acked: set<(Id, int)>, nodes: map<Id, Node>, b: Id, k: int)
    requires AcksOk(acked, nodes) && HoldsUpTo(nodes, b, k)
    ensures AcksOk(acked + {(b, k)}, nodes)
  {
  }

  lemma DeliverKeeps(primary: Id, initial: Files, s: State, m: Message)
    requires Inv(primary, initial, s) && Enabled(primary, s, Deliver(m))
    ensures Inv(primary, initial, Next(primary, s, Deliver(m)))
  {
    var leader := Leader(primary, s);
    assert MessageOk(m, s.nodes.Keys, primary, leader);
    var n := Node(true, AppendEntries(s.nodes[m.to].rep, [m.entry], m.commit));
    DeliveredNodeOk(s.nodes[m.to].rep, initial, leader, m.entry, m.commit);
    ReplaceNodeKeeps(primary, initial, s, m.to, n);
    AckAdded(s.acked, s.nodes[m.to := n], m.to, m.entry.index);
  }

  lemma CommitKeeps(primary: Id, initial: Files, s: State)
    requires Inv(primary, initial, s) && Enabled(primary, s, Commit)
    ensures Inv(primary, initial, Next(primary, s, Commit))
  {
    var r := s.nodes[primary].rep;
    var k := s.flight.entry.index;
    ApplyCommittedConsistent(r.(commitIndex := k), initial);
    ReplaceNodeKeeps(primary, initial, s, primary, Node(true, ApplyCommitted(r.(commitIndex := k))));
    SendsOk(s.sent, s.nodes.Keys, primary, r.disk, k, k);
  }

  lemma CrashKeeps(primary: Id, initial: Files, s: State, i: Id)
    requires Inv(primary, initial, s) && Enabled(primary, s, CrashNode(i))
    ensures Inv(primary, initial, Next(primary, s, CrashNode(i)))
  {
    var r := s.nodes[i].rep;
    ReplayStaysBetween(initial, initial, r.disk, r.lastApplied);
    var mid := if i == primary then s.(flight := NoFlight) else s;
    ReplaceNodeKeeps(primary, initial, mid, i, Node(false, Crash(r)));
  }

  lemma CrashInRecoveryKeeps(primary: Id, initial: Files, s: State, i: Id, k: nat)
    requires Inv(primary, initial, s) && Enabled(primary, s, CrashInRecovery(i, k))
    ensures Inv(primary, initial, Next(primary, s, CrashInRecovery(i, k)))
  {
    var r := s.nodes[i].rep;
    ReplayStaysBetween(r.files, initial, r.disk, k);
    ReplaceNodeKeeps(primary, initial, s, i, Node(false, r.(files := Replay(r.files, r.disk[..k]))));
  }

  lemma RestartKeeps(primary: Id, initial: Files, s: State, i: Id)
    requires Inv(primary, initial, s) && Enabled(primary, s, Restart(i))
    ensures Inv(primary, initial, Next(primary, s, Restart(i)))
  {
    var r := s.nodes[i].rep;
    RestartedNodeOk(s.nodes[i], initial, Leader(primary, s));
    ReplaceNodeKeeps(primary, initial, s, i, Node(true, Recover(r)));
  }

  lemma RecoveredNodeOk(disk: seq<LogEntry>, initial: Files, leader: seq<LogEntry>)
    requires disk <= leader
    ensures NodeOk(Node(true, Replica(disk, |disk|, |disk|, Replay(initial, disk), disk)), initial, leader)
  {
    assert disk[..|disk|] == disk;
  }

  lemma RestartedNodeOk(n: Node, initial: Files, leader: seq<LogEntry>)
    requires NodeOk(n, initial, leader) && !n.up && Dense(leader)
    ensures NodeOk(Node(true, Recover(n.rep)), initial, leader)
    ensures Recover(n.rep).commitIndex == |n.rep.disk| && Recover(n.rep).disk == n.rep.disk
  {
    RecoveryCommitsWholeLog(n.rep);
    ReplayOverwrites(n.rep.files, initial, n.rep.disk);
    RecoveredNodeOk(n.rep.disk, initial, leader);
  }

  lemma NextKeepsInv(primary: Id, initial: Files, s: State, a: Action)
    requires Inv(primary, initial, s) && Enabled(primary, s, a)
    ensures Inv(primary, initial, Next(primary, s, a))
  {
    match a
    case StartClose(_, _, _) => StartCloseKeeps(primary, initial, s, a);
    case Deliver(m) => DeliverKeeps(primary, initial, s, m);
    case TakeAck(b) =>
    case Commit => CommitKeeps(primary, initial, s);
    case GiveUp =>
    case CrashNode(i) => CrashKeeps(primary, initial, s, i);
    case CrashInRecovery(i, k) => CrashInRecoveryKeeps(primary, initial, s, i, k);
    case Restart(i) => RestartKeeps(primary, initial, s, i);
  }

  /** No step shortens a log file or changes who is in the cluster. */
  lemma DisksGrow(primary: Id, s: State, a: Action, b: Id)
    requires Enabled(primary, s, a) && b in s.nodes
    ensures b in Next(primary, s, a).nodes && s.nodes[b].rep.disk <= Next(primary, s, a).nodes[b].rep.disk
    ensures a.Commit? ==> Next(primary, s, a).nodes[b].rep.disk == s.nodes[b].rep.disk
  {
    if a.Deliver? { AppendKeepsDisk(s.nodes[a.message.to].rep, [a.message.entry], a.message.commit); }
  }

  lemma SameMembers(primary: Id, s: State, a: Action)
    requires Enabled(primary, s, a) && primary in s.nodes
    ensures Next(primary, s, a).nodes.Keys == s.nodes.Keys
    ensures Majority(Next(primary, s, a)) == Majority(s)
  {
    var s' := Next(primary, s, a);
    assert s'.nodes.Keys == s.nodes.Keys;
    assert |s'.nodes| == |s'.nodes.Keys| && |s.nodes| == |s.nodes.Keys|;
  }

  lemma HoldersGrow(primary: Id, initial: Files, s: State, a: Action, k: int)
    requires Inv(primary, initial, s) && Enabled(primary, s, a)
    ensures |Holders(s, k)| <= |Holders(Next(primary, s, a), k)|
    ensures Majority(Next(primary, s, a)) == Majority(s)
  {
    forall b | b in Holders(s, k) ensures b in Holders(Next(primary, s, a), k) {
      DisksGrow(primary, s, a, b);
    }
    Smaller(Holders(s, k), Holders(Next(primary, s, a), k));
    SameMembers(primary, s, a);
  }

  lemma CommitReachesQuorum(primary: Id, initial: Files, s: State)
    requires Inv(primary, initial, s) && Enabled(primary, s, Commit)
    ensures |Holders(s, s.flight.entry.index)| >= Majority(s)
  {
    var k := s.flight.entry.index;
    forall b | b in {primary} + s.flight.acks ensures b in Holders(s, k) {
      if b != primary { assert HoldsUpTo(s.nodes, b, k); }
    }
    Smaller({primary} + s.flight.acks, Holders(s, k));
  }

  lemma CommitMakesQuorum(primary: Id, initial: Files, s: State)
    requires Inv(primary, initial, s) && Enabled(primary, s, Commit)
    ensures Quorum(primary, Next(primary, s, Commit))
  {
    CommitReachesQuorum(primary, initial, s);
    HoldersGrow(primary, initial, s, Commit, s.flight.entry.index);
  }

  lemma NextKeepsQuorum(primary: Id, initial: Files, s: State, a: Action)
    requires Inv(primary, initial, s) && Quorum(primary, s) && Enabled(primary, s, a) && a != Restart(primary)
    ensures Quorum(primary, Next(primary, s, a))
  {
    var s' := Next(primary, s, a);
    if a.Commit? {
      CommitMakesQuorum(primary, initial, s);
    } else if s'.nodes[primary].up {
      CommitIndexStays(primary, initial, s, a);
      HoldersGrow(primary, initial, s, a, s'.nodes[primary].rep.commitIndex);
    }
  }

  lemma CommitIndexStays(primary: Id, initial: Files, s: State, a: Action)
    requires Inv(primary, initial, s) && Enabled(primary, s, a) && a != Restart(primary) && !a.Commit?
    requires Next(primary, s, a).nodes[primary].up
    ensures s.nodes[primary].up
    ensures Next(primary, s, a).nodes[primary].rep.commitIndex == s.nodes[primary].rep.commitIndex
  {
  }

  lemma {:induction false} Smaller(a: set<Id>, b: set<Id>)
    requires a <= b
    ensures |a| <= |b|
  {
    assert b == a + (b - a);
  }

  // ---------- what holds of every run ----------

  lemma {:induction false} RunKeepsInv(primary: Id, initial: Files, s: State, actions: seq<Action>)
    requires Inv(primary, initial, s)
    ensures Inv(primary, initial, After(primary, s, actions))
  {
    if actions == [] {
    } else {
      var front, a := actions[..|actions| - 1], actions[|actions| - 1];
      RunKeepsInv(primary, initial, s, front);
      var before := After(primary, s, front);
      if Enabled(primary, before, a) { NextKeepsInv(primary, initial, before, a); }
    }
  }

  lemma {:induction false} RunKeepsQuorum(primary: Id, initial: Files, s: State, actions: seq<Action>)
    requires Inv(primary, initial, s) && Quorum(primary, s) && Restart(primary) !in actions
    ensures Quorum(primary, After(primary, s, actions))
  {
    if actions == [] {
    } else {
      var front, a := actions[..|actions| - 1], actions[|actions| - 1];
      RunKeepsQuorum(primary, initial, s, front);
      RunKeepsInv(primary, initial, s, front);
      var before := After(primary, s, front);
      if Enabled(primary, before, a) { NextKeepsQuorum(primary, initial, before, a); }
    }
  }

  /** Logs are prefixes of the primary's log, entry i has index i+1, and running servers
      that applied equally many entries hold equal files. */
  lemma EveryRunAgrees(primary: Id, initial: Files, s: State, actions: seq<Action>, i: Id, j: Id)
    requires Start(primary, initial, s)
    requires var s' := After(primary, s, actions); i in s'.nodes && j in s'.nodes && s'.nodes[i].up && s'.nodes[j].up
    ensures var s' := After(primary, s, actions);
            var ri, rj := s'.nodes[i].rep, s'.nodes[j].rep;
            && primary in s'.nodes && ri.log <= Leader(primary, s') && Dense(ri.log)
            && (ri.lastApplied == rj.lastApplied ==> ri.files == rj.files)
  {
    StartIsInv(primary, initial, s);
    RunKeepsInv(primary, initial, s, actions);
    var s' := After(primary, s, actions);
    var leader := Leader(primary, s');
    var ri, rj := s'.nodes[i].rep, s'.nodes[j].rep;
    assert NodeOk(s'.nodes[i], initial, leader) && NodeOk(s'.nodes[j], initial, leader);
    if ri.lastApplied == rj.lastApplied {
      assert ri.log[..ri.lastApplied] == leader[..ri.lastApplied] == rj.log[..rj.lastApplied];
    }
  }

  ghost predicate AllWrites(log: seq<LogEntry>) {
    forall i :: 0 <= i < |log| ==> log[i].op == "WRITE"
  }

  lemma StepKeepsWrites(primary: Id, initial: Files, s: State, a: Action)
    requires Inv(primary, initial, s) && Enabled(primary, s, a) && AllWrites(Leader(primary, s))
    ensures primary in Next(primary, s, a).nodes && AllWrites(Leader(primary, Next(primary, s, a)))
  {
    if a.Deliver? { assert MessageOk(a.message, s.nodes.Keys, primary, Leader(primary, s)); }
  }

  lemma {:induction false} RunKeepsWrites(primary: Id, initial: Files, s: State, actions: seq<Action>)
    requires Inv(primary, initial, s) && AllWrites(Leader(primary, s))
    ensures var s' := After(primary, s, actions); primary in s'.nodes && AllWrites(Leader(primary, s'))
  {
    if actions == [] {
    } else {
      var front, a := actions[..|actions| - 1], actions[|actions| - 1];
      RunKeepsWrites(primary, initial, s, front);
      RunKeepsInv(primary, initial, s, front);
      var before := After(primary, s, front);
      if Enabled(primary, before, a) { StepKeepsWrites(primary, initial, before, a); }
    }
  }

  /** No entry after k and up to n writes the file that entry k writes. */
  ghost predicate NotOverwritten(log: seq<LogEntry>, k: int, n: int) {
    1 <= k <= |log| && forall j :: k <= j < n && j < |log| ==> log[j].filename != log[k - 1].filename
  }

  /** r' knows the greater of both commit indices, has applied entry e and everything else up to
      there, and its file holds the entry's content unless a later applied entry writes it too. */
  ghost predicate HasApplied(r: Replica, r': Replica, e: LogEntry, commit: int) {
    && r'.commitIndex == Max(r.commitIndex, commit)
    && r'.lastApplied == Min(r'.commitIndex, |r'.log|) && e.index <= r'.lastApplied
    && (NotOverwritten(r'.log, e.index, r'.lastApplied) ==> Lookup(r'.files, e.filename) == Some(e.content))
  }

  lemma DeliveredIsApplied(r: Replica, initial: Files, leader: seq<LogEntry>, e: LogEntry, commit: int)
    requires NodeOk(Node(true, r), initial, leader) && Dense(leader) && AllWrites(leader)
    requires 1 <= e.index <= |leader| && e == leader[e.index - 1] && e.index <= |r.log| + 1 && e.index <= commit
    ensures HasApplied(r, AppendEntries(r, [e], commit), e, commit)
  {
    DeliveredNodeOk(r, initial, leader, e, commit);
    AppendedCommit(r, [e], commit);
    var r' := AppendEntries(r, [e], commit);
    assert r'.log[e.index - 1] == e;
    if NotOverwritten(r'.log, e.index, r'.lastApplied) { AppliedEntryDecides(r', initial, e.index); }
  }

  lemma StepApplies(primary: Id, initial: Files, s: State, m: Message)
    requires Inv(primary, initial, s) && AllWrites(Leader(primary, s))
    requires Enabled(primary, s, Deliver(m)) && m.entry.index <= m.commit
    ensures HasApplied(s.nodes[m.to].rep, Next(primary, s, Deliver(m)).nodes[m.to].rep, m.entry, m.commit)
  {
    var leader := Leader(primary, s);
    assert MessageOk(m, s.nodes.Keys, primary, leader) && NodeOk(s.nodes[m.to], initial, leader);
    DeliveredIsApplied(s.nodes[m.to].rep, initial, leader, m.entry, m.commit);
  }

  /** In every run, a backup that is handed an entry together with its commit applies it. */
  lemma DeliveryApplies(primary: Id, initial: Files, s: State, actions: seq<Action>, m: Message)
    requires Start(primary, initial, s)
    requires Enabled(primary, After(primary, s, actions), Deliver(m)) && m.entry.index <= m.commit
    ensures var before := After(primary, s, actions);
            HasApplied(before.nodes[m.to].rep, Next(primary, before, Deliver(m)).nodes[m.to].rep, m.entry, m.commit)
  {
    StartIsInv(primary, initial, s);
    RunKeepsInv(primary, initial, s, actions);
    RunKeepsWrites(primary, initial, s, actions);
    StepApplies(primary, initial, After(primary, s, actions), m);
  }

  /** The servers that have the primary's entry k at position k. */
  ghost function HaveEntry(primary: Id, s: State, k: nat): set<Id>
    requires primary in s.nodes && 1 <= k <= |Leader(primary, s)|
  {
    set b | b in s.nodes && k <= |s.nodes[b].rep.disk| && s.nodes[b].rep.disk[k - 1] == Leader(primary, s)[k - 1]
  }

  lemma HoldersHaveEntry(primary: Id, initial: Files, s: State, c: int, k: nat)
    requires Inv(primary, initial, s) && 1 <= k <= c <= |Leader(primary, s)|
    ensures Holders(s, c) <= HaveEntry(primary, s, k)
  {
  }

  // ---------- entries that a Commit step committed ----------

  /** Action i of the run is a Commit of entry e. */
  ghost predicate CommitsAt(primary: Id, s: State, actions: seq<Action>, i: nat, e: LogEntry) {
    && i < |actions| && actions[i] == Commit
    && var before := After(primary, s, actions[..i]);
    Enabled(primary, before, Commit) && before.flight.entry == e
  }

  /** The index of the entry that the last Commit of the run committed, 0 if there is none. */
  ghost function Mark(primary: Id, s: State, actions: seq<Action>): int {
    if actions == [] then 0
    else
      var front, a := actions[..|actions| - 1], actions[|actions| - 1];
      var before := After(primary, s, front);
      if a == Commit && Enabled(primary, before, a) then before.flight.entry.index else Mark(primary, s, front)
  }

  /** The mark never goes back, a majority of log files reaches it, and it stays on the log. */
  ghost predicate Marked(primary: Id, s: State, mark: int) {
    && primary in s.nodes
    && 0 <= mark <= |Leader(primary, s)| && |Holders(s, mark)| >= Majority(s)
  }

  lemma StepKeepsMarked(primary: Id, initial: Files, s: State, a: Action, mark: int)
    requires Inv(primary, initial, s) && Enabled(primary, s, a) && Marked(primary, s, mark)
    ensures Marked(primary, Next(primary, s, a), mark)
    ensures a.Commit? ==> Marked(primary, Next(primary, s, a), s.flight.entry.index)
  {
    DisksGrow(primary, s, a, primary);
    HoldersGrow(primary, initial, s, a, mark);
    if a.Commit? {
      CommitReachesQuorum(primary, initial, s);
      HoldersGrow(primary, initial, s, a, s.flight.entry.index);
    }
  }

  lemma {:induction false} RunKeepsMarked(primary: Id, initial: Files, s: State, actions: seq<Action>)
    requires Start(primary, initial, s)
    ensures Marked(primary, After(primary, s, actions), Mark(primary, s, actions))
  {
    if actions == [] {
      assert Holders(s, 0) == s.nodes.Keys;
    } else {
      var front, a := actions[..|actions| - 1], actions[|actions| - 1];
      RunKeepsMarked(primary, initial, s, front);
      StartIsInv(primary, initial, s);
      RunKeepsInv(primary, initial, s, front);
      var before := After(primary, s, front);
      if Enabled(primary, before, a) {
        StepKeepsMarked(primary, initial, before, a, Mark(primary, s, front));
      }
    }
  }

  /** Entry e is at its position in the primary's log file, at or below the mark. */
  ghost predicate InPlace(primary: Id, s: State, mark: int, e: LogEntry) {
    && primary in s.nodes && 1 <= e.index <= mark <= |Leader(primary, s)|
    && Leader(primary, s)[e.index - 1] == e
  }

  lemma StepKeepsInPlace(primary: Id, initial: Files, s: State, a: Action, mark: int, e: LogEntry)
    requires Inv(primary, initial, s) && Enabled(primary, s, a) && InPlace(primary, s, mark, e)
    ensures InPlace(primary, Next(primary, s, a), if a.Commit? then s.flight.entry.index else mark, e)
  {
    DisksGrow(primary, s, a, primary);
  }

  lemma CommitPutsInPlace(primary: Id, s: State)
    requires Enabled(primary, s, Commit) && FlightOk(s.flight, s.nodes, primary, Leader(primary, s))
    ensures InPlace(primary, Next(primary, s, Commit), s.flight.entry.index, s.flight.entry)
  {
    DisksGrow(primary, s, Commit, primary);
  }

  lemma MarkStep(primary: Id, s: State, actions: seq<Action>)
    requires actions != []
    ensures var front, a := actions[..|actions| - 1], actions[|actions| - 1];
            var before := After(primary, s, front);
            if Enabled(primary, before, a) then
              && After(primary, s, actions) == Next(primary, before, a)
              && Mark(primary, s, actions) == if a == Commit then before.flight.entry.index else Mark(primary, s, front)
            else
              After(primary, s, actions) == before && Mark(primary, s, actions) == Mark(primary, s, front)
  {
  }

  lemma LastCommitInPlace(primary: Id, initial: Files, s: State, actions: seq<Action>, e: LogEntry)
    requires Start(primary, initial, s) && actions != [] && CommitsAt(primary, s, actions, |actions| - 1, e)
    ensures InPlace(primary, After(primary, s, actions), Mark(primary, s, actions), e)
  {
    StartIsInv(primary, initial, s);
    RunKeepsInv(primary, initial, s, actions[..|actions| - 1]);
    MarkStep(primary, s, actions);
    CommitPutsInPlace(primary, After(primary, s, actions[..|actions| - 1]));
  }

  lemma LastStepKeepsInPlace(primary: Id, initial: Files, s: State, actions: seq<Action>, e: LogEntry)
    requires Start(primary, initial, s) && actions != []
    requires var front := actions[..|actions| - 1];
             InPlace(primary, After(primary, s, front), Mark(primary, s, front), e)
    ensures InPlace(primary, After(primary, s, actions), Mark(primary, s, actions), e)
  {
    var front, a := actions[..|actions| - 1], actions[|actions| - 1];
    StartIsInv(primary, initial, s);
    RunKeepsInv(primary, initial, s, front);
    MarkStep(primary, s, actions);
    if Enabled(primary, After(primary, s, front), a) {
      StepKeepsInPlace(primary, initial, After(primary, s, front), a, Mark(primary, s, front), e);
    }
  }

  /** Whatever was ever committed is at or below the mark and still where it was. */
  lemma {:induction false} CommittedBelowMark(primary: Id, initial: Files, s: State, actions: seq<Action>,
                                              i: nat, e: LogEntry)
    requires Start(primary, initial, s) && CommitsAt(primary, s, actions, i, e)
    ensures InPlace(primary, After(primary, s, actions), Mark(primary, s, actions), e)
  {
    if i == |actions| - 1 {
      LastCommitInPlace(primary, initial, s, actions, e);
    } else {
      assert actions[..|actions| - 1][..i] == actions[..i];
      CommittedBelowMark(primary, initial, s, actions[..|actions| - 1], i, e);
      LastStepKeepsInPlace(primary, initial, s, actions, e);
    }
  }

  /** Every entry a Commit step ever committed stays at its position in the log files of a majority,
      through every crash and restart, the primary's included. */
  lemma CommittedOnMajority(primary: Id, initial: Files, s: State, actions: seq<Action>, i: nat, e: LogEntry)
    requires Start(primary, initial, s) && CommitsAt(primary, s, actions, i, e)
    ensures var s' := After(primary, s, actions);
            && primary in s'.nodes && 1 <= e.index <= |Leader(primary, s')| && Leader(primary, s')[e.index - 1] == e
            && |HaveEntry(primary, s', e.index)| >= Majority(s')
  {
    StartIsInv(primary, initial, s);
    RunKeepsInv(primary, initial, s, actions);
    RunKeepsMarked(primary, initial, s, actions);
    CommittedBelowMark(primary, initial, s, actions, i, e);
    var s', mark := After(primary, s, actions), Mark(primary, s, actions);
    HoldersHaveEntry(primary, initial, s', mark, e.index);
    Smaller(Holders(s', mark), HaveEntry(primary, s', e.index));
  }

  ghost function Down(s: State): set<Id> {
    set b | b in s.nodes && !s.nodes[b].up
  }

  /** If at most half the servers are lost, counting those that are down, one running server has every
      entry that was ever committed at its position. */
  lemma SomeSurvivorHasCommitted(primary: Id, initial: Files, s: State, actions: seq<Action>, lost: set<Id>)
    returns (b: Id)
    requires Start(primary, initial, s)
    requires Down(After(primary, s, actions)) <= lost
    requires |lost| <= |After(primary, s, actions).nodes| / 2
    ensures var s' := After(primary, s, actions);
            && b in s'.nodes && s'.nodes[b].up && b !in lost
            && forall i, e :: CommitsAt(primary, s, actions, i, e) ==>
                 1 <= e.index <= |s'.nodes[b].rep.log| && s'.nodes[b].rep.log[e.index - 1] == e
  {
    StartIsInv(primary, initial, s);
    RunKeepsInv(primary, initial, s, actions);
    RunKeepsMarked(primary, initial, s, actions);
    var s', mark := After(primary, s, actions), Mark(primary, s, actions);
    if Holders(s', mark) <= lost { Smaller(Holders(s', mark), lost); }
    b :| b in Holders(s', mark) && b !in lost;
    assert b !in Down(s');
    assert NodeOk(s'.nodes[b], initial, Leader(primary, s'));
    forall i, e | CommitsAt(primary, s, actions, i, e)
      ensures 1 <= e.index <= |s'.nodes[b].rep.log| && s'.nodes[b].rep.log[e.index - 1] == e
    {
      CommittedBelowMark(primary, initial, s, actions, i, e);
    }
  }

  // ---------- the primary's commit index ----------

  lemma {:induction false} AfterConcat(primary: Id, s: State, a: seq<Action>, b: seq<Action>)
    ensures After(primary, s, a + b) == After(primary, After(primary, s, a), b)
  {
    if b == [] {
      assert a + b == a;
    } else {
      assert (a + b)[..|a + b| - 1] == a + b[..|b| - 1];
      AfterConcat(primary, s, a, b[..|b| - 1]);
    }
  }

  ghost predicate EndsWithCommit(primary: Id, s: State, actions: seq<Action>) {
    && actions != [] && actions[|actions| - 1] == Commit
    && Enabled(primary, After(primary, s, actions[..|actions| - 1]), Commit)
  }

  /** From the start, and again from every Commit, until the primary next restarts, all that it calls
      committed is on a majority. */
  lemma CommitIndexOnMajority(primary: Id, initial: Files, s: State, before: seq<Action>, after: seq<Action>)
    requires Start(primary, initial, s) && Restart(primary) !in after
    requires before == [] || EndsWithCommit(primary, s, before)
    ensures Quorum(primary, After(primary, s, before + after))
  {
    StartIsInv(primary, initial, s);
    RunKeepsInv(primary, initial, s, before);
    if before == [] {
    } else {
      var front := before[..|before| - 1];
      RunKeepsInv(primary, initial, s, front);
      CommitMakesQuorum(primary, initial, After(primary, s, front));
    }
    RunKeepsQuorum(primary, initial, After(primary, s, before), after);
    AfterConcat(primary, s, before, after);
  }

  // ---------- a restart of the primary ----------

  /** Recovery declares the whole log committed, so it keeps the majority property
      exactly when the last logged entry already is on a majority. */
  lemma PrimaryRestartKeepsQuorumIff(primary: Id, initial: Files, s: State)
    requires Inv(primary, initial, s) && !s.nodes[primary].up
    ensures Quorum(primary, Next(primary, s, Restart(primary)))
            <==> |Holders(s, |Leader(primary, s)|)| >= Majority(s)
  {
    var s' := Next(primary, s, Restart(primary));
    RecoveryCommitsWholeLog(s.nodes[primary].rep);
    var k := |Leader(primary, s)|;
    assert s'.nodes.Keys == s.nodes.Keys;
    assert |s'.nodes| == |s'.nodes.Keys| == |s.nodes|;
    assert Holders(s', k) == Holders(s, k);
  }

  /** Three servers with empty logs. */
  function ThreeServers(): State {
    var n := Node(true, Replica([], 0, 0, map[], []));
    State(map[0 := n, 1 := n, 2 := n], {}, {}, NoFlight)
  }

  lemma ThreeNodes(s: State)
    requires s.nodes.Keys == {0, 1, 2}
    ensures Majority(s) == 2
  {
  }

  lemma AfterSnoc(primary: Id, s: State, actions: seq<Action>, a: Action)
    ensures var before := After(primary, s, actions);
            After(primary, s, actions + [a]) == if Enabled(primary, before, a) then Next(primary, before, a) else before
  {
  }

  /** The smallest such run: an entry that reached nobody is committed by a restart. */
  lemma PrimaryRestartCanBreakQuorum(content: string)
    ensures Start(0, map[], ThreeServers())
    ensures var run := [StartClose("f", content, 1)] + [GiveUp] + [CrashNode(0)] + [Restart(0)];
            !Quorum(0, After(0, ThreeServers(), run))
  {
    var s, a := ThreeServers(), StartClose("f", content, 1);
    var s1 := Next(0, s, a);
    AfterSnoc(0, s, [], a);
    assert [] + [a] == [a];
    ThreeNodes(s1);
    AfterSnoc(0, s, [a], GiveUp);
    AfterSnoc(0, s, [a] + [GiveUp], CrashNode(0));
    AfterSnoc(0, s, [a] + [GiveUp] + [CrashNode(0)], Restart(0));
    UnsharedEntryRestart(Next(0, Next(0, s1, GiveUp), CrashNode(0)));
  }

  lemma UnsharedEntryRestart(s: State)
    requires s.nodes.Keys == {0, 1, 2} && !s.nodes[0].up && s.nodes[0].rep == Crash(s.nodes[0].rep)
    requires |s.nodes[0].rep.disk| == 1 && s.nodes[0].rep.disk[0].index == 1
    requires s.nodes[1].rep.disk == [] && s.nodes[2].rep.disk == []
    ensures !Quorum(0, Next(0, s, Restart(0)))
  {
    var s' := Next(0, s, Restart(0));
    RecoveryCommitsWholeLog(s.nodes[0].rep);
    ThreeNodes(s');
    assert Holders(s', 1) == {0};
  }

  // ---------- a Close that reaches a backup ----------

  /** A Close whose entry one of two backups acknowledges commits, and once the commit is sent
      there both servers have written the file. */
  function SharedClose(e: LogEntry): seq<Action> {
    [StartClose(e.filename, e.content, e.version)] + [Deliver(Message(1, e, 0))] + [TakeAck(1)] + [Commit]
    + [Deliver(Message(1, e, 1))]
  }

  ghost predicate HoldsEntry(r: Replica, e: LogEntry) {
    r == Replica([e], 1, 1, map[e.filename := e.content], [e])
  }

  lemma AfterStart(e: LogEntry) returns (s': State)
    requires e.index == 1 && e.op == "WRITE"
    ensures Enabled(0, ThreeServers(), StartClose(e.filename, e.content, e.version))
    ensures s' == Next(0, ThreeServers(), StartClose(e.filename, e.content, e.version))
    ensures s'.nodes.Keys == {0, 1, 2} && s'.nodes[0] == Node(true, Replica([e], 0, 0, map[], [e]))
    ensures s'.nodes[1] == Node(true, Replica([], 0, 0, map[], []))
    ensures Message(1, e, 0) in s'.sent && s'.flight == Flight(e, {})
  {
    s' := Next(0, ThreeServers(), StartClose(e.filename, e.content, e.version));
    assert [] + [e] == [e];
  }

  lemma FirstDelivery(e: LogEntry)
    requires e.index == 1 && e.op == "WRITE"
    ensures AppendEntries(Replica([], 0, 0, map[], []), [e], 0) == Replica([e], 0, 0, map[], [e])
    ensures HoldsEntry(AppendEntries(Replica([e], 0, 0, map[], [e]), [e], 1), e)
    ensures HoldsEntry(ApplyCommitted(Replica([e], 1, 0, map[], [e])), e)
  {
    AppendOne([], e);
    AppendOne([e], e);
    ReplayOne(map[], e);
    assert [] + [e] == [e] && [e][0..] == [e] && [e][0..1] == [e] && [e] + [] == [e] && [e][1..] == [];
  }

  lemma CommitAfterAck(s: State, e: LogEntry) returns (s': State)
    requires e.index == 1 && e.op == "WRITE" && s.nodes.Keys == {0, 1, 2} && s.flight == Flight(e, {})
    requires s.nodes[0].rep == Replica([e], 0, 0, map[], [e]) && s.nodes[0].up
    requires s.nodes[1] == Node(true, Replica([e], 0, 0, map[], [e])) && (1, 1) in s.acked
    ensures Enabled(0, s, TakeAck(1)) && Enabled(0, Next(0, s, TakeAck(1)), Commit)
    ensures s' == Next(0, Next(0, s, TakeAck(1)), Commit)
    ensures s'.nodes.Keys == {0, 1, 2} && s'.nodes[0].up && HoldsEntry(s'.nodes[0].rep, e)
    ensures s'.nodes[1] == s.nodes[1] && Message(1, e, 1) in s'.sent
  {
    var acked := Next(0, s, TakeAck(1));
    ThreeNodes(acked);
    assert acked.flight.acks == {1};
    FirstDelivery(e);
    s' := Next(0, acked, Commit);
  }

  /** Handing the message to backup 1 replaces that backup and records its acknowledgement. */
  lemma DeliveryToOne(s: State, e: LogEntry, commit: int, r': Replica) returns (s': State)
    requires s.nodes.Keys == {0, 1, 2} && s.nodes[1].up && 0 <= s.nodes[1].rep.lastApplied && e.index == 1
    requires Message(1, e, commit) in s.sent && r' == AppendEntries(s.nodes[1].rep, [e], commit)
    ensures Enabled(0, s, Deliver(Message(1, e, commit))) && s' == Next(0, s, Deliver(Message(1, e, commit)))
    ensures s'.nodes.Keys == {0, 1, 2} && s'.nodes[0] == s.nodes[0] && s'.nodes[1] == Node(true, r')
    ensures s'.flight == s.flight && (1, 1) in s'.acked
  {
    s' := Next(0, s, Deliver(Message(1, e, commit)));
  }

  lemma FiveSteps(e: LogEntry) returns (s1: State, s2: State, s4: State, s5: State)
    requires e.index == 1 && e.op == "WRITE"
    ensures var a0 := StartClose(e.filename, e.content, e.version);
            && Enabled(0, ThreeServers(), a0) && s1 == Next(0, ThreeServers(), a0)
            && Enabled(0, s1, Deliver(Message(1, e, 0))) && s2 == Next(0, s1, Deliver(Message(1, e, 0)))
            && Enabled(0, s2, TakeAck(1)) && Enabled(0, Next(0, s2, TakeAck(1)), Commit)
            && s4 == Next(0, Next(0, s2, TakeAck(1)), Commit) && Next(0, s2, TakeAck(1)).flight.entry == e
            && Enabled(0, s4, Deliver(Message(1, e, 1))) && s5 == Next(0, s4, Deliver(Message(1, e, 1)))
    ensures s5.nodes.Keys == {0, 1, 2} && HoldsEntry(s5.nodes[0].rep, e) && HoldsEntry(s5.nodes[1].rep, e)
  {
    FirstDelivery(e);
    s1 := AfterStart(e);
    s2 := DeliveryToOne(s1, e, 0, Replica([e], 0, 0, map[], [e]));
    s4 := CommitAfterAck(s2, e);
    s5 := DeliveryToOne(s4, e, 1, AppendEntries(s4.nodes[1].rep, [e], 1));
  }

  lemma StartOfThree()
    ensures Start(0, map[], ThreeServers())
  {
  }

  /** A run in which a Commit step is enabled, takes place and reaches a backup. */
  lemma CloseCanCommit(e: LogEntry)
    requires e.index == 1 && e.op == "WRITE"
    ensures Start(0, map[], ThreeServers())
    ensures CommitsAt(0, ThreeServers(), SharedClose(e), 3, e)
    ensures var s' := After(0, ThreeServers(), SharedClose(e));
            && s'.nodes.Keys == {0, 1, 2}
            && HoldsEntry(s'.nodes[0].rep, e) && HoldsEntry(s'.nodes[1].rep, e)
  {
    var s1, s2, s4, s5 := FiveSteps(e);
    StartOfThree();
    RunOfFive(ThreeServers(), StartClose(e.filename, e.content, e.version), Deliver(Message(1, e, 0)),
              TakeAck(1), Commit, Deliver(Message(1, e, 1)));
  }

  lemma RunOfFive(s: State, a: Action, b: Action, c: Action, d: Action, e: Action)
    requires Enabled(0, s, a)
    requires var s1 := Next(0, s, a); Enabled(0, s1, b) && Enabled(0, Next(0, s1, b), c)
    requires var s3 := Next(0, Next(0, Next(0, s, a), b), c); Enabled(0, s3, d) && Enabled(0, Next(0, s3, d), e)
    ensures var s3 := Next(0, Next(0, Next(0, s, a), b), c);
            var actions := [a] + [b] + [c] + [d] + [e];
            && After(0, s, actions) == Next(0, Next(0, s3, d), e)
            && actions[..3] == [a] + [b] + [c] && actions[3] == d && After(0, s, actions[..3]) == s3
  {
    AfterSnoc(0, s, [], a);
    assert [] + [a] == [a];
    AfterSnoc(0, s, [a], b);
    AfterSnoc(0, s, [a] + [b], c);
    AfterSnoc(0, s, [a] + [b] + [c], d);
    AfterSnoc(0, s, [a] + [b] + [c] + [d], e);
  }
}
