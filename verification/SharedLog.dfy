/**
 Files that share the primary's log: a Close that missed its majority stays in the log, and
 the next committed Close of any file applies it; entries below lastApplied are never applied.
 Which files that leaves out of step with their prime sets.
 */
module SharedLog {
  import opened Base
  import opened NumberText
  import opened PrimeSets
  import opened Replication
  import opened Requests

  // ---------- the effect of one Close on log, files and sets ----------

  /** The file of a Close that passes all checks. */
  ghost function Target(s: Primary, c: Call): Option<string> {
    if c.req.fd in s.fds && Admitted(s, c.req, s.fds[c.req.fd].filename) then Some(s.fds[c.req.fd].filename) else None
  }

  ghost predicate Effect(s: Primary, c: Call, s': Primary)
    requires 0 <= s.rep.lastApplied
  {
    match Target(s, c)
    case None => s'.rep == s.rep && s'.sets == s.sets
    case Some(g) =>
      var logged := Logged(s.rep, EntryOf(s, c, g));
      if ReachesMajority(s, c.acks) then
        && s'.rep == ApplyCommitted(logged.(commitIndex := |logged.log|))
        && s'.sets == s.sets[g := StoredSet(s, g) + Stored(c.req.data)]
      else
        s'.rep == logged && s'.sets == s.sets
  }

  lemma UntargetedEffect(s: Primary, c: Call)
    requires 0 <= s.rep.lastApplied && Target(s, c).None?
    ensures Effect(s, c, Close(s, c.req, c.order, c.acks).0)
  {
  }

  lemma CloseEffect(s: Primary, c: Call)
    requires 0 <= s.rep.lastApplied
    ensures Effect(s, c, Close(s, c.req, c.order, c.acks).0)
  {
    match Target(s, c)
    case None => UntargetedEffect(s, c);
    case Some(g) =>
      if ReachesMajority(s, c.acks) {
        CommittedShape(s, c, g);
      } else {
        FailedClose(s, c);
      }
  }

  /** The text the log still holds for a file beyond the applied entries. */
  function Pending(r: Replica, f: string): Option<string> {
    if 0 <= r.lastApplied <= |r.log| then LastContent(r.log[r.lastApplied..], f) else None
  }

  lemma LoggedPending(r: Replica, e: LogEntry, f: string)
    requires 0 <= r.lastApplied <= |r.log| && e.op == "WRITE"
    ensures Pending(Logged(r, e), f) == if e.filename == f then Some(e.content) else Pending(r, f)
  {
    assert (r.log + [e])[r.lastApplied..] == r.log[r.lastApplied..] + [e];
    LastContentConcat(r.log[r.lastApplied..], [e], f);
  }

  lemma AppliedPending(r: Replica, f: string)
    requires 0 <= r.lastApplied < |r.log|
    ensures var r' := ApplyCommitted(r.(commitIndex := |r.log|));
            && r'.lastApplied == |r'.log| && Pending(r', f) == None
            && TextOf(r'.files, f) == if Pending(r, f).Some? then Pending(r, f).value else TextOf(r.files, f)
  {
    ApplyToEnd(r);
    ReplayLookup(r.files, r.log[r.lastApplied..], f);
  }

  lemma UncommittedEffect(s: Primary, c: Call, s': Primary, f: string)
    requires 0 <= s.rep.lastApplied <= |s.rep.log| && Effect(s, c, s')
    requires Target(s, c).Some? ==> !ReachesMajority(s, c.acks)
    ensures 0 <= s'.rep.lastApplied <= |s'.rep.log|
    ensures Pending(s'.rep, f) == if Target(s, c) == Some(f) then Some(EntryOf(s, c, f).content) else Pending(s.rep, f)
    ensures s'.rep.files == s.rep.files && s'.sets == s.sets
  {
    match Target(s, c)
    case None =>
    case Some(g) => LoggedPending(s.rep, EntryOf(s, c, g), f);
  }

  lemma CommittedEffect(s: Primary, c: Call, s': Primary, g: string, f: string)
    requires 0 <= s.rep.lastApplied <= |s.rep.log| && Effect(s, c, s') && IsMapOrder(c.order)
    requires Target(s, c) == Some(g) && ReachesMajority(s, c.acks)
    ensures s'.rep.lastApplied == |s'.rep.log| && Pending(s'.rep, f) == None
    ensures g == f ==> InStep(s', f)
    ensures g != f ==> StoredSet(s', f) == StoredSet(s, f)
    ensures g != f ==> TextOf(s'.rep.files, f)
                       == if Pending(s.rep, f).Some? then Pending(s.rep, f).value else TextOf(s.rep.files, f)
  {
    var e := EntryOf(s, c, g);
    LoggedPending(s.rep, e, f);
    AppliedPending(Logged(s.rep, e), f);
    EntryPrinted(s, c, g);
  }

  // ---------- the calls that matter for one file ----------

  /** Of each call: is it an admitted Close of f, is it a committed Close of whatever file, does
      it bring no number that the set of f lacks. */
  datatype CallFacts = CallFacts(admitted: bool, committed: bool, nothingNew: bool)

  /** m is the last committed call of the first n, or -1. */
  ghost predicate IsLastCommit(h: seq<CallFacts>, n: nat, m: int)
    requires n <= |h|
  {
    && -1 <= m < n && (m >= 0 ==> h[m].committed)
    && forall j :: m < j < n ==> !h[j].committed
  }

  /** k is the last admitted call from lo to hi - 1. */
  ghost predicate IsLastAdmitted(h: seq<CallFacts>, lo: nat, hi: nat, k: int)
    requires hi <= |h|
  {
    lo <= k < hi && h[k].admitted && forall j :: k < j < hi ==> !h[j].admitted
  }

  ghost predicate LastAdmitted(h: seq<CallFacts>, lo: nat, hi: nat, k: Option<nat>)
    requires hi <= |h|
  {
    match k
    case Some(i) => IsLastAdmitted(h, lo, hi, i)
    case None => forall j :: lo <= j < hi ==> !h[j].admitted
  }

  /** commit is the last committed call or -1, last the last admitted call up to it, pending the
      last one after it. */
  datatype Marks = Marks(commit: int, last: Option<nat>, pending: Option<nat>)

  ghost predicate MarksOk(h: seq<CallFacts>, n: nat, x: Marks)
    requires n <= |h|
  {
    && IsLastCommit(h, n, x.commit)
    && LastAdmitted(h, 0, x.commit + 1, x.last) && LastAdmitted(h, x.commit + 1, n, x.pending)
  }

  /** The marks after one more call. */
  function NextMarks(c: CallFacts, n: nat, x: Marks): Marks {
    var newest := if c.admitted then Some(n) else x.pending;
    if c.committed then Marks(n, if newest.Some? then newest else x.last, None) else x.(pending := newest)
  }

  function MarksAfter(h: seq<CallFacts>, n: nat): Marks
    requires n <= |h|
  {
    if n == 0 then Marks(-1, None, None) else NextMarks(h[n - 1], n - 1, MarksAfter(h, n - 1))
  }

  lemma {:induction false} MarksAreRight(h: seq<CallFacts>, n: nat)
    requires n <= |h|
    ensures MarksOk(h, n, MarksAfter(h, n))
  {
    if n == 0 {
    } else {
      MarksAreRight(h, n - 1);
    }
  }

  /** What a call does to the agreement of file and set: nothing, unless it commits; then the
      file takes the text of this Close, or one that waits in the log, or keeps its own. waiting
      tells whether the waiting text agrees with the set. */
  ghost predicate AgreementStep(x: CallFacts, waiting: Option<bool>, before: bool, after: bool) {
    after <==> if !x.committed || (!x.admitted && waiting.None?) then before else x.admitted || waiting.value
  }

  /** The text that waits is the pending Close's, or before any commit what the log held at the
      start, whose agreement is `initial`. */
  function WaitingIn(h: seq<CallFacts>, x: Marks, initial: Option<bool>): Option<bool> {
    if x.pending.Some? then (if x.pending.value < |h| then Some(h[x.pending.value].nothingNew) else None)
    else if x.commit < 0 then initial
    else None
  }

  ghost predicate AgreementStepAt(h: seq<CallFacts>, initial: Option<bool>, agree: seq<bool>, n: nat)
    requires n < |h| && |agree| == |h| + 1
  {
    AgreementStep(h[n], WaitingIn(h, MarksAfter(h, n), initial), agree[n], agree[n + 1])
  }

  lemma {:induction false} AgreementIff(h: seq<CallFacts>, initial: Option<bool>, agree: seq<bool>, n: nat)
    requires n <= |h| && |agree| == |h| + 1
    requires forall i :: 0 <= i < |h| ==> AgreementStepAt(h, initial, agree, i)
    ensures var x := MarksAfter(h, n);
            && (x.last.Some? ==> x.last.value < n)
            && (agree[n] <==> if x.last.Some? then h[x.last.value].committed || h[x.last.value].nothingNew
                              else if x.commit >= 0 && initial.Some? then initial.value
                              else agree[0])
  {
    if n == 0 {
    } else {
      AgreementIff(h, initial, agree, n - 1);
      assert AgreementStepAt(h, initial, agree, n - 1);
      MarksAreRight(h, n - 1);
    }
  }

  /** m is the last committed call and k the last admitted one up to m. */
  ghost predicate Decides(h: seq<CallFacts>, m: int, k: int) {
    IsLastCommit(h, |h|, m) && IsLastAdmitted(h, 0, m + 1, k)
  }

  ghost predicate SomeCommit(h: seq<CallFacts>) {
    exists i :: 0 <= i < |h| && h[i].committed
  }

  lemma LastDecides(h: seq<CallFacts>)
    ensures var x := MarksAfter(h, |h|);
            && (x.last.Some? ==> Decides(h, x.commit, x.last.value))
            && (forall m, k :: Decides(h, m, k) ==> x.last == Some(k))
            && (x.commit >= 0 <==> SomeCommit(h))
  {
    MarksAreRight(h, |h|);
  }

  ghost predicate AgreementSteps(h: seq<CallFacts>, initial: Option<bool>, agree: seq<bool>) {
    |agree| == |h| + 1 && forall i :: 0 <= i < |h| ==> AgreementStepAt(h, initial, agree, i)
  }

  /** The last admitted Close of f, at or before the last committed Close of any file, decides: it
      must have committed or brought no number new to the set. Without one, a commit brings in
      what the log held for f at the start; without that too, nothing changes. */
  ghost predicate Verdict(h: seq<CallFacts>, initial: Option<bool>, before: bool) {
    if exists m, k :: Decides(h, m, k) then
      forall m, k :: Decides(h, m, k) ==> h[k].committed || h[k].nothingNew
    else if SomeCommit(h) && initial.Some? then
      initial.value
    else
      before
  }

  lemma VerdictIff(h: seq<CallFacts>, initial: Option<bool>, agree: seq<bool>)
    requires AgreementSteps(h, initial, agree)
    ensures agree[|h|] <==> Verdict(h, initial, agree[0])
  {
    AgreementIff(h, initial, agree, |h|);
    LastDecides(h);
  }

  // ---------- every run ----------

  ghost function FactsAt(s: Primary, c: Call, f: string): CallFacts {
    CallFacts(Target(s, c) == Some(f),
              Target(s, c).Some? && ReachesMajority(s, c.acks),
              Stored(c.req.data) <= StoredSet(s, f))
  }

  ghost function FactsOf(s: Primary, calls: seq<Call>, f: string, n: nat): CallFacts
    requires 0 <= s.rep.lastApplied && n < |calls|
  {
    FactsAt(Run(s, calls[..n]), calls[n], f)
  }

  /** The calls of a run as they look from f; call i meets the state after the calls before it. */
  ghost function History(s: Primary, calls: seq<Call>, f: string): (h: seq<CallFacts>)
    requires 0 <= s.rep.lastApplied
    ensures |h| == |calls|
  {
    seq(|calls|, i requires 0 <= i < |calls| => FactsOf(s, calls, f, i))
  }

  /** Before any commit sets are unchanged and the log still holds what it held; a pending Close
      has put its text there, and the set of f is the one it met. */
  ghost predicate PendingIs(s: Primary, calls: seq<Call>, f: string, n: nat, x: Marks)
    requires 0 <= s.rep.lastApplied && n <= |calls|
  {
    var now := Run(s, calls[..n]);
    && now.rep.lastApplied <= |now.rep.log|
    && match x.pending
       case None =>
         && Pending(now.rep, f) == (if x.commit < 0 then Pending(s.rep, f) else None)
         && (x.commit < 0 ==> StoredSet(now, f) == StoredSet(s, f))
       case Some(k) =>
         && k < n
         && StoredSet(now, f) == StoredSet(Run(s, calls[..k]), f)
         && Pending(now.rep, f) == Some(EntryOf(Run(s, calls[..k]), calls[k], f).content)
  }

  /** A file with the text of a Close is in step with the set that Close met exactly when the
      Close brought nothing new. */
  lemma TextInStepIff(s: Primary, met: Primary, c: Call, f: string)
    requires IsMapOrder(c.order) && StoredSet(s, f) == StoredSet(met, f)
    requires TextOf(s.rep.files, f) == EntryOf(met, c, f).content
    ensures InStep(s, f) <==> Stored(c.req.data) <= StoredSet(met, f)
  {
    EntryPrinted(met, c, f);
  }

  lemma RunStep(s: Primary, calls: seq<Call>, n: nat)
    requires 0 <= s.rep.lastApplied && n < |calls|
    ensures var c := calls[n];
            Run(s, calls[..n + 1]) == Close(Run(s, calls[..n]), c.req, c.order, c.acks).0
  {
    assert calls[..n + 1] == calls[..n] + [calls[n]];
    RunSnoc(s, calls[..n], calls[n]);
  }

  lemma EffectOf(s: Primary, c: Call, s': Primary)
    requires 0 <= s.rep.lastApplied && s' == Close(s, c.req, c.order, c.acks).0
    ensures Effect(s, c, s')
  {
    CloseEffect(s, c);
  }

  lemma RunEffect(s: Primary, calls: seq<Call>, n: nat)
    requires 0 <= s.rep.lastApplied && n < |calls|
    ensures Effect(Run(s, calls[..n]), calls[n], Run(s, calls[..n + 1]))
  {
    RunStep(s, calls, n);
    EffectOf(Run(s, calls[..n]), calls[n], Run(s, calls[..n + 1]));
  }

  lemma UncommittedStep(s: Primary, calls: seq<Call>, f: string, n: nat, x: Marks)
    requires 0 <= s.rep.lastApplied && n < |calls| && PendingIs(s, calls, f, n, x)
    requires !FactsAt(Run(s, calls[..n]), calls[n], f).committed
    ensures PendingIs(s, calls, f, n + 1, NextMarks(FactsAt(Run(s, calls[..n]), calls[n], f), n, x))
    ensures InStep(Run(s, calls[..n + 1]), f) <==> InStep(Run(s, calls[..n]), f)
  {
    RunEffect(s, calls, n);
    UncommittedEffect(Run(s, calls[..n]), calls[n], Run(s, calls[..n + 1]), f);
  }

  /** Whether the text the log holds at the start agrees with the set. */
  ghost function InitialAgreement(s: Primary, f: string): Option<bool> {
    if Pending(s.rep, f).Some? then Some(Printed(Pending(s.rep, f).value, StoredSet(s, f))) else None
  }

  ghost function Waiting(s: Primary, calls: seq<Call>, f: string, x: Marks): Option<bool>
    requires 0 <= s.rep.lastApplied && (x.pending.Some? ==> x.pending.value < |calls|)
  {
    if x.pending.Some? then Some(FactsAt(Run(s, calls[..x.pending.value]), calls[x.pending.value], f).nothingNew)
    else if x.commit < 0 then InitialAgreement(s, f)
    else None
  }

  lemma CommittedStep(s: Primary, calls: seq<Call>, f: string, n: nat, x: Marks)
    requires 0 <= s.rep.lastApplied && n < |calls| && PendingIs(s, calls, f, n, x)
    requires IsMapOrder(calls[n].order) && (x.pending.Some? ==> IsMapOrder(calls[x.pending.value].order))
    requires FactsAt(Run(s, calls[..n]), calls[n], f).committed
    ensures PendingIs(s, calls, f, n + 1, NextMarks(FactsAt(Run(s, calls[..n]), calls[n], f), n, x))
    ensures AgreementStep(FactsAt(Run(s, calls[..n]), calls[n], f), Waiting(s, calls, f, x),
                          InStep(Run(s, calls[..n]), f), InStep(Run(s, calls[..n + 1]), f))
  {
    var now, next := Run(s, calls[..n]), Run(s, calls[..n + 1]);
    RunEffect(s, calls, n);
    var g := Target(now, calls[n]).value;
    CommittedEffect(now, calls[n], next, g, f);
    if g != f && x.pending.Some? {
      TextInStepIff(next, Run(s, calls[..x.pending.value]), calls[x.pending.value], f);
    }
  }

  lemma AgreementOneStep(s: Primary, calls: seq<Call>, f: string, n: nat, x: Marks)
    requires 0 <= s.rep.lastApplied && n < |calls| && PendingIs(s, calls, f, n, x)
    requires IsMapOrder(calls[n].order) && (x.pending.Some? ==> IsMapOrder(calls[x.pending.value].order))
    ensures AgreementStep(FactsAt(Run(s, calls[..n]), calls[n], f), Waiting(s, calls, f, x),
                          InStep(Run(s, calls[..n]), f), InStep(Run(s, calls[..n + 1]), f))
  {
    if FactsAt(Run(s, calls[..n]), calls[n], f).committed {
      CommittedStep(s, calls, f, n, x);
    } else {
      UncommittedStep(s, calls, f, n, x);
    }
  }

  /** c are the facts of call m, the last of the first n. */
  lemma PendingStep(s: Primary, calls: seq<Call>, f: string, c: CallFacts, m: nat, n: nat, x: Marks)
    requires 0 <= s.rep.lastApplied && m < |calls| && n == m + 1 && PendingIs(s, calls, f, m, x)
    requires IsMapOrder(calls[m].order) && (x.pending.Some? ==> IsMapOrder(calls[x.pending.value].order))
    requires c == FactsAt(Run(s, calls[..m]), calls[m], f)
    ensures PendingIs(s, calls, f, n, NextMarks(c, m, x))
  {
    if c.committed {
      CommittedStep(s, calls, f, m, x);
    } else {
      UncommittedStep(s, calls, f, m, x);
    }
  }

  ghost predicate MapOrders(calls: seq<Call>) {
    forall i :: 0 <= i < |calls| ==> IsMapOrder(calls[i].order)
  }

  lemma PendingAtStart(s: Primary, calls: seq<Call>, f: string)
    requires 0 <= s.rep.lastApplied <= |s.rep.log|
    ensures PendingIs(s, calls, f, 0, Marks(-1, None, None))
  {
    assert calls[..0] == [];
  }

  lemma PendingMarks(s: Primary, calls: seq<Call>, f: string, h: seq<CallFacts>, n: nat)
    requires 0 <= s.rep.lastApplied && 0 < n <= |calls| == |h| && h[n - 1] == FactsOf(s, calls, f, n - 1)
    requires MapOrders(calls) && PendingIs(s, calls, f, n - 1, MarksAfter(h, n - 1))
    ensures PendingIs(s, calls, f, n, MarksAfter(h, n))
  {
    PendingStep(s, calls, f, h[n - 1], n - 1, n, MarksAfter(h, n - 1));
  }

  lemma {:induction false} PendingTracked(s: Primary, calls: seq<Call>, f: string, h: seq<CallFacts>, n: nat)
    requires 0 <= s.rep.lastApplied <= |s.rep.log| && n <= |calls| == |h| && h == History(s, calls, f)
    requires MapOrders(calls)
    ensures PendingIs(s, calls, f, n, MarksAfter(h, n))
  {
    if n == 0 {
      PendingAtStart(s, calls, f);
    } else {
      PendingTracked(s, calls, f, h, n - 1);
      PendingMarks(s, calls, f, h, n);
    }
  }

  ghost predicate InStepAfter(s: Primary, calls: seq<Call>, f: string, n: nat)
    requires 0 <= s.rep.lastApplied && n <= |calls|
  {
    InStep(Run(s, calls[..n]), f)
  }

  ghost function Agreements(s: Primary, calls: seq<Call>, f: string): (agree: seq<bool>)
    requires 0 <= s.rep.lastApplied
    ensures |agree| == |calls| + 1
    ensures forall i :: 0 <= i <= |calls| ==> agree[i] == InStepAfter(s, calls, f, i)
  {
    seq(|calls| + 1, i requires 0 <= i <= |calls| => InStepAfter(s, calls, f, i))
  }

  lemma WaitingSame(s: Primary, calls: seq<Call>, f: string, h: seq<CallFacts>, x: Marks)
    requires 0 <= s.rep.lastApplied && |h| == |calls| && h == History(s, calls, f)
    requires x.pending.Some? ==> x.pending.value < |calls|
    ensures WaitingIn(h, x, InitialAgreement(s, f)) == Waiting(s, calls, f, x)
  {
  }

  lemma TrackedAgreement(s: Primary, calls: seq<Call>, f: string, h: seq<CallFacts>, n: nat, n': nat, x: Marks)
    requires 0 <= s.rep.lastApplied <= |s.rep.log| && n < |calls| == |h| && h == History(s, calls, f)
    requires MapOrders(calls) && n' == n + 1 && x == MarksAfter(h, n)
    ensures x.pending.Some? ==> x.pending.value < |calls|
    ensures AgreementStep(FactsOf(s, calls, f, n), Waiting(s, calls, f, x),
                          InStepAfter(s, calls, f, n), InStepAfter(s, calls, f, n'))
  {
    PendingTracked(s, calls, f, h, n);
    AgreementOneStep(s, calls, f, n, x);
  }

  lemma HistoryAgreement(s: Primary, calls: seq<Call>, f: string, h: seq<CallFacts>, n: nat, n': nat)
    requires 0 <= s.rep.lastApplied <= |s.rep.log| && n < |calls| == |h| && h == History(s, calls, f)
    requires MapOrders(calls) && n' == n + 1
    ensures AgreementStep(h[n], WaitingIn(h, MarksAfter(h, n), InitialAgreement(s, f)),
                          InStepAfter(s, calls, f, n), InStepAfter(s, calls, f, n'))
  {
    var x := MarksAfter(h, n);
    TrackedAgreement(s, calls, f, h, n, n', x);
    WaitingSame(s, calls, f, h, x);
  }

  lemma AgreementFromStates(s: Primary, f: string, h: seq<CallFacts>, agree: seq<bool>, n: nat,
                            before: bool, after: bool)
    requires n < |h| && |agree| == |h| + 1 && agree[n] == before && agree[n + 1] == after
    requires AgreementStep(h[n], WaitingIn(h, MarksAfter(h, n), InitialAgreement(s, f)), before, after)
    ensures AgreementStepAt(h, InitialAgreement(s, f), agree, n)
  {
  }

  lemma RunAgreementStep(s: Primary, calls: seq<Call>, f: string, h: seq<CallFacts>, agree: seq<bool>, n: nat)
    requires 0 <= s.rep.lastApplied <= |s.rep.log| && n < |calls| == |h| && h == History(s, calls, f)
    requires MapOrders(calls) && |agree| == |h| + 1
    requires agree[n] == InStepAfter(s, calls, f, n) && agree[n + 1] == InStepAfter(s, calls, f, n + 1)
    ensures AgreementStepAt(h, InitialAgreement(s, f), agree, n)
  {
    HistoryAgreement(s, calls, f, h, n, n + 1);
    AgreementFromStates(s, f, h, agree, n, agree[n], agree[n + 1]);
  }

  lemma RunAgreementSteps(s: Primary, calls: seq<Call>, f: string, h: seq<CallFacts>, agree: seq<bool>)
    requires 0 <= s.rep.lastApplied <= |s.rep.log| && MapOrders(calls)
    requires h == History(s, calls, f) && agree == Agreements(s, calls, f)
    ensures AgreementSteps(h, InitialAgreement(s, f), agree)
  {
    forall i | 0 <= i < |h| ensures AgreementStepAt(h, InitialAgreement(s, f), agree, i) {
      RunAgreementStep(s, calls, f, h, agree, i);
    }
  }

  /** Whether f is in step after the calls, from what holds before them. */
  ghost predicate StaysInStep(s: Primary, calls: seq<Call>, f: string)
    requires 0 <= s.rep.lastApplied
  {
    Verdict(History(s, calls, f), InitialAgreement(s, f), InStep(s, f))
  }

  lemma InStepIffNoGap(s: Primary, calls: seq<Call>, f: string)
    requires 0 <= s.rep.lastApplied <= |s.rep.log| && MapOrders(calls)
    ensures InStep(Run(s, calls), f) <==> StaysInStep(s, calls, f)
  {
    RunAgreementSteps(s, calls, f, History(s, calls, f), Agreements(s, calls, f));
    VerdictIff(History(s, calls, f), InitialAgreement(s, f), Agreements(s, calls, f));
    assert calls[..0] == [] && calls[..|calls|] == calls;
  }

  /** Start with everything applied and f in step. After any calls f is in step exactly when its
      last admitted Close, at or before the last committed Close of any file, either committed
      or brought no number that was new to its set. */
  lemma InStepAfterRunIff(s: Primary, calls: seq<Call>, f: string)
    requires 0 <= s.rep.lastApplied == |s.rep.log| && InStep(s, f)
    requires MapOrders(calls)
    ensures var h := History(s, calls, f);
            InStep(Run(s, calls), f)
            <==> forall m, k :: Decides(h, m, k) ==> h[k].committed || h[k].nothingNew
  {
    InStepIffNoGap(s, calls, f);
  }

  // ---------- entries that are never applied ----------

  /** What is applied from r to r': the entries from lastApplied on, and none before. */
  ghost predicate AppliesFrom(r: Replica, r': Replica) {
    && r.log <= r'.log && 0 <= r.lastApplied <= r'.lastApplied
    && if r'.lastApplied == r.lastApplied then r'.files == r.files
       else r'.lastApplied <= |r'.log| && r'.files == Replay(r.files, r'.log[r.lastApplied..r'.lastApplied])
  }

  lemma LoggedAppliesFrom(r: Replica, m: Replica, e: LogEntry)
    requires AppliesFrom(r, m)
    ensures AppliesFrom(r, Logged(m, e))
  {
    if m.lastApplied > r.lastApplied {
      assert (m.log + [e])[r.lastApplied..m.lastApplied] == m.log[r.lastApplied..m.lastApplied];
    }
  }

  lemma CommittedAppliesFrom(r: Replica, m: Replica)
    requires AppliesFrom(r, m) && m.log != []
    ensures AppliesFrom(r, ApplyCommitted(m.(commitIndex := |m.log|)))
  {
    ApplyToEnd(m);
    if r.lastApplied < m.lastApplied < |m.log| {
      var a, b := m.log[r.lastApplied..m.lastApplied], m.log[m.lastApplied..];
      assert m.log[r.lastApplied..|m.log|] == a + b;
      ReplayConcat(r.files, a, b);
    } else if m.lastApplied < |m.log| {
      assert m.log[r.lastApplied..|m.log|] == m.log[r.lastApplied..];
    }
  }

  lemma AppliesFromStep(r: Replica, s: Primary, c: Call, s': Primary)
    requires AppliesFrom(r, s.rep) && Effect(s, c, s')
    ensures AppliesFrom(r, s'.rep)
  {
    match Target(s, c)
    case None =>
    case Some(g) =>
      var logged := Logged(s.rep, EntryOf(s, c, g));
      LoggedAppliesFrom(r, s.rep, EntryOf(s, c, g));
      CommittedAppliesFrom(r, logged);
  }

  /** Over any run exactly the entries at positions from lastApplied on are applied. The first
      lastApplied - |log| entries that the run logs never are, and until then no file changes. */
  lemma {:induction false} FilesAfterRun(s: Primary, calls: seq<Call>)
    requires 0 <= s.rep.lastApplied
    ensures AppliesFrom(s.rep, Run(s, calls).rep)
    ensures |Run(s, calls).rep.log| <= s.rep.lastApplied ==>
              Run(s, calls).rep.files == s.rep.files && Run(s, calls).rep.lastApplied == s.rep.lastApplied
  {
    if calls == [] {
    } else {
      var n := |calls| - 1;
      FilesAfterRun(s, calls[..n]);
      assert calls[..n + 1] == calls;
      RunEffect(s, calls, n);
      AppliesFromStep(s.rep, Run(s, calls[..n]), calls[n], Run(s, calls));
    }
  }

  lemma {:induction false} RunConcat(s: Primary, a: seq<Call>, b: seq<Call>)
    requires 0 <= s.rep.lastApplied
    ensures Run(s, a + b) == Run(Run(s, a), b)
  {
    if b == [] {
      assert a + b == a;
    } else {
      var n := |b| - 1;
      RunConcat(s, a, b[..n]);
      assert a + b == a + b[..n] + [b[n]] && b == b[..n] + [b[n]];
      RunSnoc(s, a + b[..n], b[n]);
      RunSnoc(Run(s, a), b[..n], b[n]);
    }
  }

  lemma LogGrowsByOne(s: Primary, c: Call, s': Primary)
    requires 0 <= s.rep.lastApplied && Effect(s, c, s')
    ensures |s'.rep.log| <= |s.rep.log| + 1
  {
  }

  /** The calls in the gap: they bring the log to lastApplied at most. */
  ghost predicate FillsGap(s: Primary, calls: seq<Call>, n: nat)
    requires 0 <= s.rep.lastApplied
  {
    && n <= |calls|
    && var length := |Run(s, calls[..n]).rep.log|;
    length == s.rep.lastApplied || (length < s.rep.lastApplied && n == |calls|)
  }

  lemma {:induction false} GapEnds(s: Primary, calls: seq<Call>) returns (n: nat)
    requires |s.rep.log| <= s.rep.lastApplied
    ensures FillsGap(s, calls, n)
  {
    if calls == [] {
      n := 0;
    } else {
      var front := calls[..|calls| - 1];
      n := GapEnds(s, front);
      assert front[..n] == calls[..n] && front[..|front|] == front && calls[..|calls|] == calls;
      if |Run(s, front[..n]).rep.log| < s.rep.lastApplied {
        RunEffect(s, calls, n);
        LogGrowsByOne(Run(s, front), calls[n], Run(s, calls));
        n := |calls|;
      }
    }
  }

  /** The same from any state. If lastApplied lies beyond the end of the log, the first n calls,
      which fill the gap, change no file, and what follows decides as if it began there. */
  lemma InStepAfterAnyRunIff(s: Primary, calls: seq<Call>, f: string) returns (n: nat)
    requires 0 <= s.rep.lastApplied && MapOrders(calls)
    ensures if s.rep.lastApplied <= |s.rep.log| then n == 0 else FillsGap(s, calls, n)
    ensures n <= |calls| && Run(s, calls[..n]).rep.files == s.rep.files
    ensures InStep(Run(s, calls), f) <==> StaysInStep(Run(s, calls[..n]), calls[n..], f)
  {
    if s.rep.lastApplied <= |s.rep.log| {
      n := 0;
      assert calls[..0] == [] && calls[0..] == calls;
      InStepIffNoGap(s, calls, f);
    } else {
      n := GapEnds(s, calls);
      FilesAfterRun(s, calls[..n]);
      assert calls[..n] + calls[n..] == calls;
      RunConcat(s, calls[..n], calls[n..]);
      StaysFromGapEnd(Run(s, calls[..n]), calls[n..], f);
    }
  }

  lemma StaysFromGapEnd(s: Primary, calls: seq<Call>, f: string)
    requires 0 <= s.rep.lastApplied && MapOrders(calls)
    requires s.rep.lastApplied == |s.rep.log| || calls == []
    ensures InStep(Run(s, calls), f) <==> StaysInStep(s, calls, f)
  {
    if s.rep.lastApplied <= |s.rep.log| {
      InStepIffNoGap(s, calls, f);
    }
  }

  // ---------- a rejected Close that reaches the file ----------

  /** Two open files on three servers. */
  const TWO_FILES: Primary :=
    Primary(true, 3, Replica([], 0, 0, map[], []), map[], map[],
            map[0 := OpenFile("f", map["a" := WriteMode]), 1 := OpenFile("g", map["a" := WriteMode])], map[], false)

  function CloseOf(id: string, fd: int, data: string): CloseRequest {
    CloseRequest(id, "a", fd, true, 1, data)
  }

  lemma SevenStored()
    ensures Stored("7") == {7}
  {
    StoredDigits(7);
    assert Digits(7) == "7";
  }

  /** The first of the two calls: no backup answers. */
  lemma FirstCall(c: Call, s': Primary)
    requires c == Call(CloseOf("1", 0, "7"), AnyOrder, [])
    requires s' == Close(TWO_FILES, c.req, c.order, c.acks).0
    ensures Close(TWO_FILES, c.req, c.order, c.acks).1 == Rejected(Unavailable)
    ensures s' == TWO_FILES.(versions := map["f" := 1], rep := Logged(TWO_FILES.rep, EntryOf(TWO_FILES, c, "f")))
    ensures 0 <= s'.rep.lastApplied <= |s'.rep.log| && Pending(s'.rep, "f") == Some(EntryOf(TWO_FILES, c, "f").content)
  {
    FailedClose(TWO_FILES, c);
    LoggedPending(TWO_FILES.rep, EntryOf(TWO_FILES, c, "f"), "f");
  }

  /** The second: one backup answers. */
  lemma SecondCall(s: Primary, c: Call, s': Primary)
    requires s.(rep := TWO_FILES.rep) == TWO_FILES.(versions := map["f" := 1]) && 0 <= s.rep.lastApplied <= |s.rep.log|
    requires c == Call(CloseOf("2", 1, ""), AnyOrder, [true]) && s' == Close(s, c.req, c.order, c.acks).0
    requires Pending(s.rep, "f").Some?
    ensures Close(s, c.req, c.order, c.acks).1 == Returned(2)
    ensures TextOf(s'.rep.files, "f") == Pending(s.rep, "f").value && StoredSet(s', "f") == {}
  {
    AnyOrderIsMapOrder();
    CloseEffect(s, c);
    CommittedEffect(s, c, s', "g", "f");
    CommittedShape(s, c, "g");
  }

  lemma LeakedText(c: Call)
    requires c == Call(CloseOf("1", 0, "7"), AnyOrder, [])
    ensures Stored(EntryOf(TWO_FILES, c, "f").content) == {7}
  {
    SevenStored();
    AnyOrderIsMapOrder();
    EntryPrinted(TWO_FILES, c, "f");
    assert StoredSet(TWO_FILES, "f") + Stored("7") == {7};
  }

  lemma RunOfTwo(s: Primary, a: Call, b: Call)
    requires 0 <= s.rep.lastApplied
    ensures var (s1, o1) := Close(s, a.req, a.order, a.acks);
            && 0 <= s1.rep.lastApplied && Answer(s, [a, b], 0) == o1
            && (Run(s, [a, b]), Answer(s, [a, b], 1)) == Close(s1, b.req, b.order, b.acks)
  {
    assert [a, b][..1] == [a] && [a][..0] == [] && [a, b][..0] == [];
    RunLast(s, [a]);
    RunLast(s, [a, b]);
  }

  /** A Close of f with a new number that no backup answers is rejected, and a committed Close
      of g then writes that number to f, whose set stays empty. */
  lemma RejectedCloseCanLeak(first: Call, second: Call)
    requires first == Call(CloseOf("1", 0, "7"), AnyOrder, [])
    requires second == Call(CloseOf("2", 1, ""), AnyOrder, [true])
    ensures var after := Run(TWO_FILES, [first, second]);
            && Answer(TWO_FILES, [first, second], 0) == Rejected(Unavailable)
            && Answer(TWO_FILES, [first, second], 1) == Returned(2)
            && Stored(TextOf(after.rep.files, "f")) == {7} && StoredSet(after, "f") == {}
            && InStep(TWO_FILES, "f") && !InStep(after, "f")
  {
    var s1 := Close(TWO_FILES, first.req, first.order, first.acks).0;
    RunOfTwo(TWO_FILES, first, second);
    FirstCall(first, s1);
    SecondCall(s1, second, Run(TWO_FILES, [first, second]));
    LeakedText(first);
  }
}
