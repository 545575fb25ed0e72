/**
 The version check and bump that dirty Close and Write perform while they hold the
 write token of a file (server_basics.go), among any number of threads.
 */
module Versions {
  import opened Base
  import opened FileToken

  /** Waiting: in AcquireWrite or not yet past the check. Accepted: passed the check.
      Leaving: failed, conflicted or finished, about to release the token. */
  datatype Stage = Waiting | Accepted | Leaving

  datatype Call = Call(base: int32, stage: Stage)

  datatype Win = Win(thread: nat, base: int32)

  /** wins lists the calls that bumped the version, in order. */
  datatype State = State(tok: System, version: int32, calls: map<nat, Call>, wins: seq<Win>)

  datatype Step =
    | Begin(thread: nat, base: int32)
    | Check(thread: nat, writeMode: bool)
    | Fail(thread: nat)
    | Bump(thread: nat)
    | Release(thread: nat)
    | Other(event: Event)

  predicate Holds(s: State, t: nat, stage: Stage) {
    t in s.calls && s.calls[t].stage == stage && t in s.tok.threads && s.tok.threads[t] == Writing
  }

  predicate CanStep(s: State, e: Step) {
    match e
    case Begin(t, _) => t !in s.tok.threads && t !in s.calls
    case Check(t, _) => Holds(s, t, Waiting)
    case Fail(t) => Holds(s, t, Accepted)
    case Bump(t) => Holds(s, t, Accepted)
    case Release(t) => Holds(s, t, Leaving)
    // readers, Delete and waiting threads that test their guard again
    case Other(ev) => Enabled(s.tok, ev) && (ev.thread !in s.calls || ev.Retry?)
  }

  function DoStep(s: State, e: Step): State
    requires CanStep(s, e)
  {
    match e
    case Begin(t, base) =>
      s.(tok := Next(s.tok, Arrive(t, Writer)), calls := s.calls[t := Call(base, Waiting)])
    case Check(t, writeMode) =>
      var ok := writeMode && s.calls[t].base == s.version;
      s.(calls := s.calls[t := s.calls[t].(stage := if ok then Accepted else Leaving)])
    case Fail(t) => s.(calls := s.calls[t := s.calls[t].(stage := Leaving)])
    case Bump(t) =>
      s.(version := Inc32(s.version),
         wins := s.wins + [Win(t, s.calls[t].base)],
         calls := s.calls[t := s.calls[t].(stage := Leaving)])
    case Release(t) => s.(tok := Next(s.tok, FinishWrite(t)), calls := s.calls - {t})
    case Other(ev) => s.(tok := Next(s.tok, ev))
  }

  function AfterSteps(s: State, steps: seq<Step>): State {
    if steps == [] then s
    else
      var before, e := AfterSteps(s, steps[..|steps| - 1]), steps[|steps| - 1];
      if CanStep(before, e) then DoStep(before, e) else before
  }

  /** The 32-bit integer congruent to n. */
  function Wrap32(n: int): int32 {
    (n + TWO_31) % TWO_32 - TWO_31
  }

  lemma WrapSucc(n: int)
    ensures Wrap32(n + 1) == Inc32(Wrap32(n))
  {
  }

  lemma WrapEqual(a: int, b: int)
    ensures Wrap32(a) == Wrap32(b) <==> (a - b) % TWO_32 == 0
  {
  }

  /** A call past Waiting holds the token, one that is Accepted still has the current version. */
  ghost predicate CallOk(s: State, t: nat)
    requires t in s.calls
  {
    && t in s.tok.threads
    && (s.calls[t].stage != Waiting ==> s.tok.threads[t] == Writing)
    && (s.calls[t].stage == Accepted ==> s.calls[t].base == s.version)
    && (s.calls[t].stage == Waiting ==> s.tok.threads[t] in {Asleep(Writer), Woken(Writer), Writing})
  }

  ghost predicate VersionInv(s: State, start: int32) {
    && Inv(s.tok)
    && (forall t :: t in s.calls ==> CallOk(s, t))
    && s.version == Wrap32(start + |s.wins|)
    && forall i :: 0 <= i < |s.wins| ==> s.wins[i].base == Wrap32(start + i)
  }

  lemma OnlyHolder(s: State, start: int32, t: nat, u: nat)
    requires VersionInv(s, start)
    requires t in s.tok.threads && s.tok.threads[t] == Writing && u in s.tok.threads && s.tok.threads[u] == Writing
    ensures t == u
  {
    HolderIsAlone(s.tok);
    assert t in Writers(s.tok) && u in Readers(s.tok) + Writers(s.tok);
  }

  /** A token event of one thread only wakes the others. */
  lemma OthersOnlyWake(k: System, e: Event, u: nat)
    requires Enabled(k, e) && u in k.threads && u != e.thread
    ensures u in Next(k, e).threads
    ensures var p, p' := k.threads[u], Next(k, e).threads[u];
            p' == p || (p.Asleep? && p' == Woken(p.kind))
  {
  }

  lemma StepKeepsVersionInv(s: State, start: int32, e: Step)
    requires VersionInv(s, start) && CanStep(s, e)
    ensures VersionInv(DoStep(s, e), start)
  {
    var s' := DoStep(s, e);
    match e
    case Begin(t, base) =>
      NextKeepsInv(s.tok, Arrive(t, Writer));
      forall u | u in s'.calls ensures CallOk(s', u) {
        if u != t { OthersOnlyWake(s.tok, Arrive(t, Writer), u); assert CallOk(s, u); }
      }
    case Check(t, writeMode) =>
      forall u | u in s'.calls ensures CallOk(s', u) { assert CallOk(s, u); }
    case Fail(t) =>
      forall u | u in s'.calls ensures CallOk(s', u) { assert CallOk(s, u); }
    case Bump(t) =>
      BumpKeeps(s, start, t);
    case Release(t) =>
      NextKeepsInv(s.tok, FinishWrite(t));
      forall u | u in s'.calls ensures CallOk(s', u) {
        OthersOnlyWake(s.tok, FinishWrite(t), u);
        assert CallOk(s, u);
      }
    case Other(ev) =>
      NextKeepsInv(s.tok, ev);
      forall u | u in s'.calls ensures CallOk(s', u) {
        assert CallOk(s, u);
        if u != ev.thread { OthersOnlyWake(s.tok, ev, u); }
      }
  }

  lemma BumpKeeps(s: State, start: int32, t: nat)
    requires VersionInv(s, start) && CanStep(s, Bump(t))
    ensures VersionInv(DoStep(s, Bump(t)), start)
  {
    var s' := DoStep(s, Bump(t));
    WrapSucc(start + |s.wins|);
    assert CallOk(s, t);
    forall u | u in s'.calls ensures CallOk(s', u) {
      assert CallOk(s, u);
      if u != t && s.calls[u].stage == Accepted { OnlyHolder(s, start, t, u); }
    }
  }

  lemma {:induction false} StepsKeepVersionInv(s: State, start: int32, steps: seq<Step>)
    requires VersionInv(s, start)
    ensures VersionInv(AfterSteps(s, steps), start)
  {
    if steps == [] {
    } else {
      var before, e := AfterSteps(s, steps[..|steps| - 1]), steps[|steps| - 1];
      StepsKeepVersionInv(s, start, steps[..|steps| - 1]);
      if CanStep(before, e) { StepKeepsVersionInv(before, start, e); }
    }
  }

  /** In every interleaving the version counts the successful calls, each of them brought the
      version that the one before it left, and two of them were accepted with the same base
      version exactly when they are a multiple of 2^32 apart. */
  lemma EachBaseWinsOnce(start: int32, steps: seq<Step>)
    ensures var s := AfterSteps(State(START, start, map[], []), steps);
            && s.version == Wrap32(start + |s.wins|)
            && (forall i :: 0 <= i < |s.wins| ==> s.wins[i].base == Wrap32(start + i))
            && forall i, j :: 0 <= i < |s.wins| && 0 <= j < |s.wins| ==>
                 (s.wins[i].base == s.wins[j].base <==> (i - j) % TWO_32 == 0)
  {
    StartIsInv();
    StepsKeepVersionInv(State(START, start, map[], []), start, steps);
    var s := AfterSteps(State(START, start, map[], []), steps);
    forall i, j | 0 <= i < |s.wins| && 0 <= j < |s.wins|
      ensures s.wins[i].base == s.wins[j].base <==> (i - j) % TWO_32 == 0
    {
      WrapEqual(start + i, start + j);
    }
  }

  // ---------- a file that is not open for writing ----------

  /** Thread t is never found to have the file open for writing. */
  ghost predicate NeverWriteMode(steps: seq<Step>, t: nat) {
    forall i :: 0 <= i < |steps| && steps[i].Check? && steps[i].thread == t ==> !steps[i].writeMode
  }

  ghost predicate NeverAccepted(s: State, t: nat) {
    && (t in s.calls ==> s.calls[t].stage != Accepted)
    && forall i :: 0 <= i < |s.wins| ==> s.wins[i].thread != t
  }

  /** In no interleaving does such a thread bump the version. */
  lemma {:induction false} ReadersNeverWin(s: State, steps: seq<Step>, t: nat)
    requires NeverWriteMode(steps, t) && NeverAccepted(s, t)
    ensures NeverAccepted(AfterSteps(s, steps), t)
  {
    if steps == [] {
    } else {
      ReadersNeverWin(s, steps[..|steps| - 1], t);
    }
  }

  // ---------- every number of successes occurs ----------

  /** One call that acquires the token, passes the check, succeeds and releases. */
  function Round(base: int32): seq<Step> {
    [Begin(0, base), Check(0, true), Bump(0), Release(0)]
  }

  lemma {:induction false} AfterConcat(s: State, a: seq<Step>, b: seq<Step>)
    ensures AfterSteps(s, a + b) == AfterSteps(AfterSteps(s, a), b)
  {
    if b == [] {
      assert a + b == a;
    } else {
      assert (a + b)[..|a + b| - 1] == a + b[..|b| - 1];
      AfterConcat(s, a, b[..|b| - 1]);
    }
  }

  lemma AfterOne(s: State, e: Step)
    ensures AfterSteps(s, [e]) == if CanStep(s, e) then DoStep(s, e) else s
  {
    assert [e][..0] == [];
  }

  lemma RoundSucceeds(s: State)
    requires s.tok == START && s.calls == map[]
    ensures AfterSteps(s, Round(s.version)) == State(START, Inc32(s.version), map[], s.wins + [Win(0, s.version)])
  {
    var s1 := DoStep(s, Begin(0, s.version));
    var s2 := DoStep(s1, Check(0, true));
    var s3 := DoStep(s2, Bump(0));
    var s4 := DoStep(s3, Release(0));
    AfterOne(s, Begin(0, s.version));
    AfterOne(s1, Check(0, true));
    AfterOne(s2, Bump(0));
    AfterOne(s3, Release(0));
    AfterConcat(s, [Begin(0, s.version)], [Check(0, true)]);
    AfterConcat(s, [Begin(0, s.version)] + [Check(0, true)], [Bump(0)]);
    AfterConcat(s, [Begin(0, s.version)] + [Check(0, true)] + [Bump(0)], [Release(0)]);
    assert Round(s.version) == [Begin(0, s.version)] + [Check(0, true)] + [Bump(0)] + [Release(0)];
    assert s4.tok.threads == map[] && s4.calls == map[];
  }

  /** n calls one after the other, each with the version the previous one left. */
  function WinningRun(start: int32, n: nat): seq<Step> {
    if n == 0 then [] else WinningRun(start, n - 1) + Round(Wrap32(start + n - 1))
  }

  /** For every n some run has n successes. */
  lemma {:induction false} EveryNumberOfWinsOccurs(start: int32, n: nat)
    ensures var s := AfterSteps(State(START, start, map[], []), WinningRun(start, n));
            s.tok == START && s.calls == map[] && s.version == Wrap32(start + n) && |s.wins| == n
  {
    var s0 := State(START, start, map[], []);
    if n == 0 {
    } else {
      EveryNumberOfWinsOccurs(start, n - 1);
      AfterConcat(s0, WinningRun(start, n - 1), Round(Wrap32(start + n - 1)));
      RoundSucceeds(AfterSteps(s0, WinningRun(start, n - 1)));
      WrapSucc(start + n - 1);
    }
  }

  /** So a base version can be accepted twice: by the first success and by the one 2^32 later. */
  lemma BaseAcceptedAgain(start: int32)
    ensures var s := AfterSteps(State(START, start, map[], []), WinningRun(start, TWO_32 + 1));
            |s.wins| == TWO_32 + 1 && s.wins[0].base == s.wins[TWO_32].base
  {
    EveryNumberOfWinsOccurs(start, TWO_32 + 1);
    EachBaseWinsOnce(start, WinningRun(start, TWO_32 + 1));
  }
}
