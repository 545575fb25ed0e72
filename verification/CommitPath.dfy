/**
 The dirty branch of Close on the primary (server_basics.go), for any number of clients
 that close one output file concurrently. Each critical section and each unlocked read of
 shared state is a step of its own, and each Close may fail to reach a majority.
 */
module CommitPath {
  import opened Base
  import opened NumberText
  import opened PrimeSets
  import opened Replication
  import Tok = FileToken
  import Ver = Versions

  /** What a Close has computed so far. temp is its private copy of the prime set. */
  datatype Work =
    | Fresh(data: string)
    | Copied(data: string, temp: set<uint64>)
    | Prepared(data: string, temp: set<uint64>, content: string, index: int)
    | Logged(data: string, temp: set<uint64>, content: string, index: int)
    | Applied(data: string, temp: set<uint64>)
    | Installed
    | Done

  /** stored is the prime set of the file (empty when the server has none yet),
      committed the numbers of the Closes that committed, in order. */
  datatype State = State(
    ver: Ver.State,
    work: map<nat, Work>,
    stored: set<uint64>,
    rep: Replica,
    committed: seq<seq<uint64>>)

  datatype Step =
    | Begin(thread: nat, base: int32, data: string)
    | Check(thread: nat, writeMode: bool)
    | CopySet(thread: nat)
    | Prepare(thread: nat, order: seq<uint64>)
    | Append(thread: nat)
    | NoMajority(thread: nat)
    | Commit(thread: nat)
    | Install(thread: nat)
    | Bump(thread: nat)
    | Release(thread: nat)
    | Other(event: Tok.Event)

  predicate At(s: State, t: nat) {
    Ver.Holds(s.ver, t, Ver.Accepted) && t in s.work
  }

  ghost predicate CanStep(s: State, e: Step) {
    match e
    case Begin(t, base, _) => Ver.CanStep(s.ver, Ver.Begin(t, base))
    case Check(t, writeMode) => Ver.CanStep(s.ver, Ver.Check(t, writeMode))
    case CopySet(t) => At(s, t) && s.work[t].Fresh?
    case Prepare(t, order) =>
      At(s, t) && s.work[t].Copied? && IsOrderOf(order, s.work[t].temp + SetOf(Parsed(s.work[t].data)))
    case Append(t) => At(s, t) && s.work[t].Prepared?
    case NoMajority(t) => At(s, t) && s.work[t].Logged?
    case Commit(t) => At(s, t) && s.work[t].Logged? && 0 <= s.rep.lastApplied
    case Install(t) => At(s, t) && s.work[t].Applied?
    case Bump(t) => At(s, t) && s.work[t].Installed?
    case Release(t) => Ver.CanStep(s.ver, Ver.Release(t))
    // readers, a Create that finds the file, a Delete that finds it in use
    case Other(ev) => Ver.CanStep(s.ver, Ver.Other(ev)) && (ev.TryDelete? ==> Tok.Next(s.ver.tok, ev) == s.ver.tok)
  }

  ghost function DoStep(name: string, s: State, e: Step): State
    requires CanStep(s, e)
  {
    match e
    case Begin(t, base, data) =>
      s.(ver := Ver.DoStep(s.ver, Ver.Begin(t, base)), work := s.work[t := Fresh(data)])
    case Check(t, writeMode) => s.(ver := Ver.DoStep(s.ver, Ver.Check(t, writeMode)))
    case CopySet(t) => s.(work := s.work[t := Copied(s.work[t].data, s.stored)])
    // filters and prints the private copy, then reads the length of the log
    case Prepare(t, order) =>
      var w := s.work[t];
      s.(work := s.work[t := Prepared(w.data, w.temp + SetOf(Parsed(w.data)), Lines(order), |s.rep.log| + 1)])
    case Append(t) =>
      var w := s.work[t];
      var entry := LogEntry(w.index, "WRITE", name, w.content, Inc32(s.ver.version));
      s.(rep := s.rep.(log := s.rep.log + [entry], disk := s.rep.disk + [entry]),
         work := s.work[t := Logged(w.data, w.temp, w.content, w.index)])
    case NoMajority(t) =>
      s.(ver := Ver.DoStep(s.ver, Ver.Fail(t)), work := s.work[t := Done])
    case Commit(t) =>
      var w := s.work[t];
      s.(rep := ApplyCommitted(s.rep.(commitIndex := w.index)),
         committed := s.committed + [Parsed(w.data)],
         work := s.work[t := Applied(w.data, w.temp)])
    case Install(t) =>
      s.(stored := s.work[t].temp, work := s.work[t := Installed])
    case Bump(t) =>
      s.(ver := Ver.DoStep(s.ver, Ver.Bump(t)), work := s.work[t := Done])
    case Release(t) =>
      s.(ver := Ver.DoStep(s.ver, Ver.Release(t)), work := s.work - {t})
    case Other(ev) => s.(ver := Ver.DoStep(s.ver, Ver.Other(ev)))
  }

  ghost function AfterSteps(name: string, s: State, steps: seq<Step>): State {
    if steps == [] then s
    else
      var before, e := AfterSteps(name, s, steps[..|steps| - 1]), steps[|steps| - 1];
      if CanStep(before, e) then DoStep(name, before, e) else before
  }

  /** No Close under way, and the file holds exactly the prime set, each number once. lastApplied
      may lie beyond the end of the log, as it can after a recovery. */
  ghost predicate Start(name: string, s: State) {
    && s.ver == Ver.State(Tok.START, s.ver.version, map[], []) && s.work == map[] && s.committed == []
    && 0 <= s.rep.lastApplied
    && Printed(TextOf(s.rep.files, name), s.stored)
  }

  /** What a run starts from: version, numbers of the file, lastApplied and length of the log. */
  datatype Origin = Origin(version: int32, numbers: set<uint64>, applied: int, logged: nat)

  function OriginOf(s: State): Origin {
    Origin(s.ver.version, s.stored, s.rep.lastApplied, |s.rep.log|)
  }

  // ---------- the invariant ----------

  ghost function Union(parts: seq<seq<uint64>>): set<uint64> {
    if parts == [] then {} else Union(parts[..|parts| - 1]) + SetOf(parts[|parts| - 1])
  }

  /** The initial numbers and those of every committed Close. */
  ghost function Numbers(s: State, o: Origin): set<uint64> {
    o.numbers + Union(s.committed)
  }

  /** What the file holds: nothing new as long as nothing has been applied. */
  ghost function Written(s: State, o: Origin): set<uint64> {
    if s.rep.lastApplied == o.applied then o.numbers else Numbers(s, o)
  }

  ghost predicate IndicesOk(s: State, o: Origin) {
    && 0 <= o.applied <= s.rep.lastApplied && o.logged <= |s.rep.log|
    && (s.rep.lastApplied == o.applied || s.rep.lastApplied <= |s.rep.log|)
    && (s.rep.lastApplied == o.applied <= o.logged ==> s.committed == [])
  }

  ghost predicate WorkOk(name: string, s: State, t: nat, o: Origin)
    requires t in s.work && t in s.ver.calls
  {
    var stage := s.ver.calls[t].stage;
    match s.work[t]
    case Fresh(_) => true
    case Copied(_, temp) => stage == Ver.Accepted && temp == s.stored
    case Prepared(data, temp, content, index) =>
      && stage == Ver.Accepted && temp == s.stored + SetOf(Parsed(data)) && Printed(content, temp)
      && index == |s.rep.log| + 1
    case Logged(data, temp, content, index) =>
      && stage == Ver.Accepted && temp == s.stored + SetOf(Parsed(data)) && Printed(content, temp)
      && o.logged < index == |s.rep.log| && 0 <= s.rep.lastApplied
      && (s.rep.lastApplied == o.applied || s.rep.lastApplied < index)
      && s.rep.log[index - 1].op == "WRITE" && s.rep.log[index - 1].filename == name
      && s.rep.log[index - 1].content == content
    case Applied(_, temp) => stage == Ver.Accepted && temp == Numbers(s, o)
    case Installed => stage == Ver.Accepted
    case Done => stage == Ver.Leaving
  }

  /** The Close has written the file and not yet installed its prime set. */
  ghost predicate Uninstalled(s: State, t: nat) {
    t in s.work && s.work[t].Applied?
  }

  /** The Close has committed and not yet bumped the version. */
  ghost predicate Unfinished(s: State, t: nat) {
    t in s.work && (s.work[t].Applied? || s.work[t].Installed?)
  }

  ghost predicate WorksOk(name: string, s: State, o: Origin) {
    s.work.Keys == s.ver.calls.Keys && forall t :: t in s.work ==> WorkOk(name, s, t, o)
  }

  ghost predicate TotalsOk(name: string, s: State, o: Origin) {
    && IndicesOk(s, o) && Printed(TextOf(s.rep.files, name), Written(s, o))
    && ((forall t :: !Uninstalled(s, t)) ==> s.stored == Numbers(s, o))
    && ((forall t :: !Unfinished(s, t)) ==> |s.committed| == |s.ver.wins|)
    && ((exists t :: Unfinished(s, t)) ==> |s.committed| == |s.ver.wins| + 1)
  }

  ghost predicate CommitInv(name: string, s: State, o: Origin) {
    Ver.VersionInv(s.ver, o.version) && WorksOk(name, s, o) && TotalsOk(name, s, o)
  }

  /** Whoever is past the version check is alone there. */
  lemma Alone(name: string, s: State, o: Origin, t: nat, u: nat)
    requires CommitInv(name, s, o) && At(s, t)
    requires u in s.work && !s.work[u].Fresh?
    ensures u == t
  {
    assert WorkOk(name, s, u, o);
    assert Ver.CallOk(s.ver, u);
    Ver.OnlyHolder(s.ver, o.version, t, u);
  }

  /** A step that leaves file, set, log and wins alone, and the work of every Close past Fresh. */
  ghost predicate Frame(s: State, s': State) {
    && s'.stored == s.stored && s'.rep == s.rep && s'.committed == s.committed && s'.ver.wins == s.ver.wins
    && s'.work.Keys == s'.ver.calls.Keys
    && (forall u :: (Unfinished(s', u) <==> Unfinished(s, u)) && (Uninstalled(s', u) <==> Uninstalled(s, u)))
    && forall t :: t in s'.work && !s'.work[t].Fresh? ==>
         t in s.work && t in s.ver.calls && s'.work[t] == s.work[t] && s'.ver.calls[t] == s.ver.calls[t]
  }

  lemma FrameKeepsWorks(name: string, s: State, s': State, o: Origin)
    requires WorksOk(name, s, o) && Frame(s, s')
    ensures WorksOk(name, s', o)
  {
    forall t | t in s'.work ensures WorkOk(name, s', t, o) {
      if !s'.work[t].Fresh? { assert WorkOk(name, s, t, o); }
    }
  }

  lemma FrameKeepsTotals(name: string, s: State, s': State, o: Origin)
    requires TotalsOk(name, s, o) && Frame(s, s')
    ensures TotalsOk(name, s', o)
  {
  }

  lemma FrameKeeps(name: string, s: State, s': State, o: Origin)
    requires CommitInv(name, s, o) && Ver.VersionInv(s'.ver, o.version) && Frame(s, s')
    ensures CommitInv(name, s', o)
  {
    FrameKeepsWorks(name, s, s', o);
    FrameKeepsTotals(name, s, s', o);
  }

  lemma BeginKeeps(name: string, s: State, o: Origin, t: nat, base: int32, data: string)
    requires CommitInv(name, s, o) && CanStep(s, Begin(t, base, data))
    ensures CommitInv(name, DoStep(name, s, Begin(t, base, data)), o)
  {
    Ver.StepKeepsVersionInv(s.ver, o.version, Ver.Begin(t, base));
    FrameKeeps(name, s, DoStep(name, s, Begin(t, base, data)), o);
  }

  lemma CheckKeeps(name: string, s: State, o: Origin, t: nat, writeMode: bool)
    requires CommitInv(name, s, o) && CanStep(s, Check(t, writeMode))
    ensures CommitInv(name, DoStep(name, s, Check(t, writeMode)), o)
  {
    Ver.StepKeepsVersionInv(s.ver, o.version, Ver.Check(t, writeMode));
    assert WorkOk(name, s, t, o);
    FrameKeeps(name, s, DoStep(name, s, Check(t, writeMode)), o);
  }

  /** A Close that leaves is Fresh or Done. */
  lemma ReleaseFrame(name: string, s: State, o: Origin, t: nat)
    requires WorksOk(name, s, o) && CanStep(s, Release(t))
    ensures Frame(s, DoStep(name, s, Release(t)))
  {
    assert WorkOk(name, s, t, o);
  }

  lemma ReleaseKeeps(name: string, s: State, o: Origin, t: nat)
    requires CommitInv(name, s, o) && CanStep(s, Release(t))
    ensures CommitInv(name, DoStep(name, s, Release(t)), o)
  {
    Ver.StepKeepsVersionInv(s.ver, o.version, Ver.Release(t));
    ReleaseFrame(name, s, o, t);
    FrameKeeps(name, s, DoStep(name, s, Release(t)), o);
  }

  lemma OtherKeeps(name: string, s: State, o: Origin, ev: Tok.Event)
    requires CommitInv(name, s, o) && CanStep(s, Other(ev))
    ensures CommitInv(name, DoStep(name, s, Other(ev)), o)
  {
    Ver.StepKeepsVersionInv(s.ver, o.version, Ver.Other(ev));
    FrameKeeps(name, s, DoStep(name, s, Other(ev)), o);
  }

  /** The invariant while t is past the version check: all other Closes are still Fresh. */
  ghost predicate Focused(name: string, s: State, o: Origin, t: nat) {
    && Ver.VersionInv(s.ver, o.version) && s.work.Keys == s.ver.calls.Keys && t in s.work
    && IndicesOk(s, o) && Printed(TextOf(s.rep.files, name), Written(s, o))
    && WorkOk(name, s, t, o)
    && (forall u :: u in s.work && u != t ==> s.work[u].Fresh?)
    && (!s.work[t].Applied? ==> s.stored == Numbers(s, o))
    && |s.committed| == |s.ver.wins| + if Unfinished(s, t) then 1 else 0
  }

  lemma Focus(name: string, s: State, o: Origin, t: nat)
    requires CommitInv(name, s, o) && At(s, t)
    ensures Focused(name, s, o, t)
  {
    forall u | u in s.work && u != t ensures s.work[u].Fresh? {
      if !s.work[u].Fresh? { Alone(name, s, o, t, u); }
    }
    if !s.work[t].Applied? { assert forall u :: !Uninstalled(s, u); }
    if !Unfinished(s, t) { assert forall u :: !Unfinished(s, u); }
  }

  lemma Unfocus(name: string, s: State, o: Origin, t: nat)
    requires Focused(name, s, o, t)
    ensures CommitInv(name, s, o)
  {
    assert forall u :: u != t ==> !Unfinished(s, u) && !Uninstalled(s, u);
    assert Uninstalled(s, t) <==> s.work[t].Applied?;
  }

  lemma CopySetKeeps(name: string, s: State, o: Origin, t: nat)
    requires Focused(name, s, o, t) && CanStep(s, CopySet(t))
    ensures Focused(name, DoStep(name, s, CopySet(t)), o, t)
  {
  }

  lemma PrepareKeeps(name: string, s: State, o: Origin, t: nat, order: seq<uint64>)
    requires Focused(name, s, o, t) && CanStep(s, Prepare(t, order))
    ensures Focused(name, DoStep(name, s, Prepare(t, order)), o, t)
  {
    PrintedSet(order, s.work[t].temp + SetOf(Parsed(s.work[t].data)));
  }

  lemma AppendKeeps(name: string, s: State, o: Origin, t: nat)
    requires Focused(name, s, o, t) && CanStep(s, Append(t))
    ensures Focused(name, DoStep(name, s, Append(t)), o, t)
  {
  }

  lemma NoMajorityKeeps(name: string, s: State, o: Origin, t: nat)
    requires Focused(name, s, o, t) && CanStep(s, NoMajority(t))
    ensures Focused(name, DoStep(name, s, NoMajority(t)), o, t)
  {
    Ver.StepKeepsVersionInv(s.ver, o.version, Ver.Fail(t));
  }

  lemma NumbersAfterCommit(s: State, s': State, o: Origin, nums: seq<uint64>)
    requires s'.committed == s.committed + [nums]
    ensures Numbers(s', o) == Numbers(s, o) + SetOf(nums)
  {
    assert s'.committed[..|s'.committed| - 1] == s.committed;
  }

  /** The new entry decides the file, whatever failed Closes left in the log before it, unless
      lastApplied lies at or beyond it. */
  lemma CommitWritesFile(name: string, s: State, o: Origin, t: nat)
    requires CanStep(s, Commit(t)) && t in s.ver.calls && WorkOk(name, s, t, o)
    ensures var s' := DoStep(name, s, Commit(t));
            && s'.rep.log == s.rep.log
            && if s.rep.lastApplied < |s.rep.log| then
                 TextOf(s'.rep.files, name) == s.work[t].content && s'.rep.lastApplied == |s.rep.log|
               else
                 s'.rep.files == s.rep.files && s'.rep.lastApplied == s.rep.lastApplied
  {
    ApplyToEnd(s.rep);
  }

  lemma CommitKeeps(name: string, s: State, o: Origin, t: nat)
    requires Focused(name, s, o, t) && CanStep(s, Commit(t))
    ensures Focused(name, DoStep(name, s, Commit(t)), o, t)
  {
    CommitWritesFile(name, s, o, t);
    NumbersAfterCommit(s, DoStep(name, s, Commit(t)), o, Parsed(s.work[t].data));
  }

  lemma InstallKeeps(name: string, s: State, o: Origin, t: nat)
    requires Focused(name, s, o, t) && CanStep(s, Install(t))
    ensures Focused(name, DoStep(name, s, Install(t)), o, t)
  {
  }

  lemma BumpKeeps(name: string, s: State, o: Origin, t: nat)
    requires Focused(name, s, o, t) && CanStep(s, Bump(t))
    ensures Focused(name, DoStep(name, s, Bump(t)), o, t)
  {
    Ver.StepKeepsVersionInv(s.ver, o.version, Ver.Bump(t));
  }

  /** The steps a Close takes past the version check. */
  lemma HolderStepKeeps(name: string, s: State, o: Origin, e: Step)
    requires CommitInv(name, s, o) && CanStep(s, e)
    requires e.CopySet? || e.Prepare? || e.Append? || e.NoMajority? || e.Commit? || e.Install? || e.Bump?
    ensures CommitInv(name, DoStep(name, s, e), o)
  {
    var t := e.thread;
    Focus(name, s, o, t);
    match e {
      case CopySet(_) => CopySetKeeps(name, s, o, t);
      case Prepare(_, order) => PrepareKeeps(name, s, o, t, order);
      case Append(_) => AppendKeeps(name, s, o, t);
      case NoMajority(_) => NoMajorityKeeps(name, s, o, t);
      case Commit(_) => CommitKeeps(name, s, o, t);
      case Install(_) => InstallKeeps(name, s, o, t);
      case Bump(_) => BumpKeeps(name, s, o, t);
    }
    Unfocus(name, DoStep(name, s, e), o, t);
  }

  lemma StepKeepsInv(name: string, s: State, o: Origin, e: Step)
    requires CommitInv(name, s, o) && CanStep(s, e)
    ensures CommitInv(name, DoStep(name, s, e), o)
  {
    match e
    case Begin(t, base, data) => BeginKeeps(name, s, o, t, base, data);
    case Check(t, writeMode) => CheckKeeps(name, s, o, t, writeMode);
    case Release(t) => ReleaseKeeps(name, s, o, t);
    case Other(ev) => OtherKeeps(name, s, o, ev);
    case _ => HolderStepKeeps(name, s, o, e);
  }

  lemma {:induction false} StepsKeepInv(name: string, s: State, o: Origin, steps: seq<Step>)
    requires CommitInv(name, s, o)
    ensures CommitInv(name, AfterSteps(name, s, steps), o)
  {
    if steps == [] {
    } else {
      var before, e := AfterSteps(name, s, steps[..|steps| - 1]), steps[|steps| - 1];
      StepsKeepInv(name, s, o, steps[..|steps| - 1]);
      if CanStep(before, e) { StepKeepsInv(name, before, o, e); }
    }
  }

  // ---------- what holds of every run ----------

  lemma StartIsInv(name: string, s: State)
    requires Start(name, s)
    ensures CommitInv(name, s, OriginOf(s))
  {
    Tok.StartIsInv();
    assert Numbers(s, OriginOf(s)) == s.stored;
    assert forall t :: !Unfinished(s, t) && !Uninstalled(s, t);
  }

  /** With the token free, no Close is between its commit and the end of its bookkeeping. */
  lemma NoWriterAgrees(name: string, s: State, o: Origin)
    requires CommitInv(name, s, o) && Tok.Writers(s.ver.tok) == {}
    ensures s.stored == Numbers(s, o) && s.ver.version == Ver.Wrap32(o.version + |s.committed|)
  {
    forall t | t in s.work ensures s.work[t].Fresh? {
      assert WorkOk(name, s, t, o) && Ver.CallOk(s.ver, t);
      assert t !in Tok.Writers(s.ver.tok);
    }
    assert forall t :: !Unfinished(s, t) && !Uninstalled(s, t);
  }

  /** The file holds the numbers of the start and those of the committed Closes, each once, exactly
      when something has been applied, or lastApplied did not lie beyond the log at the start, or
      the Closes brought nothing new; otherwise it holds those of the start. It is not written
      before the log has grown past lastApplied. With no writer the prime set holds all these
      numbers and the version counts the committed Closes. */
  ghost predicate Agrees(name: string, s: State, o: Origin) {
    var text, brought := TextOf(s.rep.files, name), Union(s.committed);
    && (Printed(text, o.numbers + brought)
        <==> s.rep.lastApplied > o.applied || o.applied <= o.logged || brought <= o.numbers)
    && (Printed(text, o.numbers + brought) || Printed(text, o.numbers))
    && (|s.rep.log| <= o.applied ==> s.rep.lastApplied == o.applied)
    && (Tok.Writers(s.ver.tok) == {} ==>
          s.stored == o.numbers + brought && s.ver.version == Ver.Wrap32(o.version + |s.committed|))
  }

  lemma InvAgrees(name: string, s: State, o: Origin)
    requires CommitInv(name, s, o)
    ensures Agrees(name, s, o)
  {
    if Tok.Writers(s.ver.tok) == {} { NoWriterAgrees(name, s, o); }
  }

  /** For any number of Closes of one file in any interleaving, at every moment. */
  lemma FileIsCommittedNumbers(name: string, s: State, steps: seq<Step>)
    requires Start(name, s)
    ensures Agrees(name, AfterSteps(name, s, steps), OriginOf(s))
  {
    StartIsInv(name, s);
    StepsKeepInv(name, s, OriginOf(s), steps);
    InvAgrees(name, AfterSteps(name, s, steps), OriginOf(s));
  }

  // ---------- a Close that runs alone ----------

  /** Thread 0 holds the token, alone. */
  function Holding(v: int32, stage: Ver.Stage, wins: seq<Ver.Win>): Ver.State {
    Ver.State(Tok.System(Tok.Token(0, true, 0), map[0 := Tok.Writing]), v, map[0 := Ver.Call(v, stage)], wins)
  }

  function Idle(v: int32, wins: seq<Ver.Win>): Ver.State {
    Ver.State(Tok.START, v, map[], wins)
  }

  lemma AfterSnoc(name: string, s: State, steps: seq<Step>, e: Step)
    ensures var before := AfterSteps(name, s, steps);
            AfterSteps(name, s, steps + [e]) == if CanStep(before, e) then DoStep(name, before, e) else before
  {
    assert (steps + [e])[..|steps|] == steps;
  }

  /** One more step of a run that has led to m and is now possible. */
  lemma OneMore(name: string, s: State, steps: seq<Step>, m: State, e: Step, m': State)
    requires AfterSteps(name, s, steps) == m && CanStep(m, e) && DoStep(name, m, e) == m'
    ensures AfterSteps(name, s, steps + [e]) == m'
  {
    AfterSnoc(name, s, steps, e);
  }

  /** The steps of a Close up to the point where its entry is logged. */
  function UntilLogged(v: int32, data: string, order: seq<uint64>): seq<Step> {
    [] + [Begin(0, v, data)] + [Check(0, true)] + [CopySet(0)] + [Prepare(0, order)] + [Append(0)]
  }

  lemma SoloBegin(name: string, s: State, data: string)
    requires s.ver == Idle(s.ver.version, s.ver.wins) && s.work == map[]
    ensures var v := s.ver.version;
            && CanStep(s, Begin(0, v, data))
            && DoStep(name, s, Begin(0, v, data))
               == s.(ver := Holding(v, Ver.Waiting, s.ver.wins), work := map[0 := Fresh(data)])
  {
  }

  lemma SoloCheck(name: string, s: State)
    requires s.ver == Holding(s.ver.version, Ver.Waiting, s.ver.wins)
    ensures CanStep(s, Check(0, true))
    ensures DoStep(name, s, Check(0, true)) == s.(ver := Holding(s.ver.version, Ver.Accepted, s.ver.wins))
  {
  }

  lemma SoloPrepare(name: string, s: State, data: string, order: seq<uint64>)
    requires s.ver == Holding(s.ver.version, Ver.Accepted, s.ver.wins) && s.work == map[0 := Fresh(data)]
    requires IsOrderOf(order, s.stored + Stored(data))
    ensures CanStep(s, CopySet(0))
    ensures var copied := DoStep(name, s, CopySet(0));
            && CanStep(copied, Prepare(0, order))
            && DoStep(name, copied, Prepare(0, order))
               == s.(work := map[0 := Prepared(data, s.stored + Stored(data), Lines(order), |s.rep.log| + 1)])
  {
  }

  /** The entry that a Close of this file logs. */
  function EntryFor(name: string, s: State, order: seq<uint64>): LogEntry {
    LogEntry(|s.rep.log| + 1, "WRITE", name, Lines(order), Inc32(s.ver.version))
  }

  /** After the last of these steps. */
  function LoggedState(name: string, s: State, data: string, order: seq<uint64>): State {
    var e := EntryFor(name, s, order);
    s.(ver := Holding(s.ver.version, Ver.Accepted, s.ver.wins),
       rep := s.rep.(log := s.rep.log + [e], disk := s.rep.disk + [e]),
       work := map[0 := Logged(data, s.stored + Stored(data), Lines(order), |s.rep.log| + 1)])
  }

  lemma SoloAppend(name: string, s: State, m: State, data: string, order: seq<uint64>)
    requires m == s.(ver := Holding(s.ver.version, Ver.Accepted, s.ver.wins),
                     work := map[0 := Prepared(data, s.stored + Stored(data), Lines(order), |s.rep.log| + 1)])
    ensures CanStep(m, Append(0)) && DoStep(name, m, Append(0)) == LoggedState(name, s, data, order)
  {
  }

  lemma SoloUntilLogged(name: string, s: State, data: string, order: seq<uint64>)
    requires s.ver == Idle(s.ver.version, s.ver.wins) && s.work == map[]
    requires IsOrderOf(order, s.stored + Stored(data))
    ensures AfterSteps(name, s, UntilLogged(s.ver.version, data, order)) == LoggedState(name, s, data, order)
  {
    var v := s.ver.version;
    SoloBegin(name, s, data);
    var s1 := DoStep(name, s, Begin(0, v, data));
    OneMore(name, s, [], s, Begin(0, v, data), s1);
    SoloCheck(name, s1);
    var s2 := DoStep(name, s1, Check(0, true));
    OneMore(name, s, [] + [Begin(0, v, data)], s1, Check(0, true), s2);
    SoloPrepare(name, s2, data, order);
    var s3 := DoStep(name, s2, CopySet(0));
    OneMore(name, s, [] + [Begin(0, v, data)] + [Check(0, true)], s2, CopySet(0), s3);
    var s4 := DoStep(name, s3, Prepare(0, order));
    OneMore(name, s, [] + [Begin(0, v, data)] + [Check(0, true)] + [CopySet(0)], s3, Prepare(0, order), s4);
    SoloAppend(name, s, s4, data, order);
    OneMore(name, s, [] + [Begin(0, v, data)] + [Check(0, true)] + [CopySet(0)] + [Prepare(0, order)],
            s4, Append(0), LoggedState(name, s, data, order));
  }

  lemma SoloRelease(name: string, s: State)
    requires s.ver == Holding(s.ver.version, Ver.Leaving, s.ver.wins).(version := s.ver.version, calls := s.ver.calls)
    requires s.ver.calls.Keys == {0} && s.ver.calls[0].stage == Ver.Leaving && s.work.Keys == {0}
    ensures CanStep(s, Release(0))
    ensures DoStep(name, s, Release(0)) == s.(ver := Idle(s.ver.version, s.ver.wins), work := map[])
  {
    var s' := DoStep(name, s, Release(0));
    assert s'.ver.tok.threads == map[] && s'.ver.calls == map[] && s'.work == map[];
  }

  /** A Close that runs alone and misses its majority leaves its entry in the log and nothing else. */
  lemma SoloCloseFails(name: string, s: State, data: string, order: seq<uint64>)
    requires s.ver == Idle(s.ver.version, s.ver.wins) && s.work == map[]
    requires IsOrderOf(order, s.stored + Stored(data))
    ensures var e := EntryFor(name, s, order);
            AfterSteps(name, s, UntilLogged(s.ver.version, data, order) + [NoMajority(0)] + [Release(0)])
            == s.(rep := s.rep.(log := s.rep.log + [e], disk := s.rep.disk + [e]))
  {
    var steps, m := UntilLogged(s.ver.version, data, order), LoggedState(name, s, data, order);
    SoloUntilLogged(name, s, data, order);
    var m1 := DoStep(name, m, NoMajority(0));
    OneMore(name, s, steps, m, NoMajority(0), m1);
    SoloRelease(name, m1);
    OneMore(name, s, steps + [NoMajority(0)], m1, Release(0), DoStep(name, m1, Release(0)));
  }

  lemma SoloApply(name: string, m: State, data: string, temp: set<uint64>, content: string, index: int)
    requires m.ver == Holding(m.ver.version, Ver.Accepted, m.ver.wins) && 0 <= m.rep.lastApplied
    requires m.work == map[0 := Logged(data, temp, content, index)]
    ensures CanStep(m, Commit(0))
    ensures DoStep(name, m, Commit(0))
            == m.(rep := ApplyCommitted(m.rep.(commitIndex := index)),
                  committed := m.committed + [Parsed(data)], work := map[0 := Applied(data, temp)])
  {
  }

  lemma SoloInstall(name: string, m: State, data: string, temp: set<uint64>)
    requires m.ver == Holding(m.ver.version, Ver.Accepted, m.ver.wins) && m.work == map[0 := Applied(data, temp)]
    ensures CanStep(m, Install(0)) && DoStep(name, m, Install(0)) == m.(stored := temp, work := map[0 := Installed])
  {
  }

  lemma SoloBump(name: string, m: State)
    requires m.ver == Holding(m.ver.version, Ver.Accepted, m.ver.wins) && m.work == map[0 := Installed]
    ensures CanStep(m, Bump(0))
    ensures var v := m.ver.version;
            DoStep(name, m, Bump(0))
            == m.(ver := Ver.State(m.ver.tok, Inc32(v), map[0 := Ver.Call(v, Ver.Leaving)],
                                   m.ver.wins + [Ver.Win(0, v)]),
                  work := map[0 := Done])
  {
  }

  /** A Close that runs alone and reaches a majority applies its entry, merges its numbers, counts as
      committed and bumps the version. */
  lemma SoloCloseCommits(name: string, s: State, data: string, order: seq<uint64>)
    requires s.ver == Idle(s.ver.version, s.ver.wins) && s.work == map[] && 0 <= s.rep.lastApplied
    requires IsOrderOf(order, s.stored + Stored(data))
    ensures var e := EntryFor(name, s, order);
            var logged := s.rep.(log := s.rep.log + [e], disk := s.rep.disk + [e]);
            AfterSteps(name, s, UntilLogged(s.ver.version, data, order) + [Commit(0)] + [Install(0)] + [Bump(0)]
                                + [Release(0)])
            == State(Idle(Inc32(s.ver.version), s.ver.wins + [Ver.Win(0, s.ver.version)]), map[],
                     s.stored + Stored(data), ApplyCommitted(logged.(commitIndex := e.index)),
                     s.committed + [Parsed(data)])
  {
    var steps, m := UntilLogged(s.ver.version, data, order), LoggedState(name, s, data, order);
    SoloUntilLogged(name, s, data, order);
    SoloApply(name, m, data, s.stored + Stored(data), Lines(order), |s.rep.log| + 1);
    var m1 := DoStep(name, m, Commit(0));
    OneMore(name, s, steps, m, Commit(0), m1);
    SoloInstall(name, m1, data, s.stored + Stored(data));
    var m2 := DoStep(name, m1, Install(0));
    OneMore(name, s, steps + [Commit(0)], m1, Install(0), m2);
    SoloBump(name, m2);
    var m3 := DoStep(name, m2, Bump(0));
    OneMore(name, s, steps + [Commit(0)] + [Install(0)], m2, Bump(0), m3);
    SoloRelease(name, m3);
    OneMore(name, s, steps + [Commit(0)] + [Install(0)] + [Bump(0)], m3, Release(0), DoStep(name, m3, Release(0)));
  }
}
