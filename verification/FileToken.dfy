/**
 The reader/writer token of a file (FileEntry in server_basics.go): its critical
 sections as methods of a class, and the concurrent system of all threads that use
 one token, with sleeping in cond.Wait and waking by Broadcast.
 */
module FileToken {
  // ---------- the counters and what each critical section does to them ----------

  datatype Token = Token(activeReaders: int, activeWriter: bool, waitingWriters: int)

  /** AcquireRead, AcquireReadNoPriority and AcquireWrite. */
  datatype Kind = Reader | InputReader | Writer

  predicate CanRead(k: Token) {
    !k.activeWriter && k.waitingWriters == 0
  }

  predicate CanWrite(k: Token) {
    !k.activeWriter && k.activeReaders == 0
  }

  /** The condition a thread of this kind waits for. */
  predicate Guard(kind: Kind, k: Token) {
    match kind
    case Reader => CanRead(k)
    case InputReader => !k.activeWriter
    case Writer => CanWrite(k)
  }

  function Announce(kind: Kind, k: Token): Token {
    if kind.Writer? then k.(waitingWriters := k.waitingWriters + 1) else k
  }

  function Enter(kind: Kind, k: Token): Token {
    if kind.Writer? then k.(waitingWriters := k.waitingWriters - 1, activeWriter := true)
    else k.(activeReaders := k.activeReaders + 1)
  }

  function LeaveRead(k: Token): Token {
    if k.activeReaders > 0 then k.(activeReaders := k.activeReaders - 1) else k
  }

  function LeaveWrite(k: Token): Token {
    k.(activeWriter := false)
  }

  /** The object itself. Each method is one critical section under its mutex; granted
      is false where the original calls cond.Wait and later tests again. */
  class FileEntry {
    var activeReaders: int
    var activeWriter: bool
    var waitingWriters: int

    constructor ()
      ensures View() == Token(0, false, 0)
    {
      activeReaders, activeWriter, waitingWriters := 0, false, 0;
    }

    function View(): Token
      reads this
    {
      Token(activeReaders, activeWriter, waitingWriters)
    }

    method AcquireReadNoPriority() returns (granted: bool)
      modifies this
      ensures granted <==> !old(activeWriter)
      ensures View() == (if granted then Enter(InputReader, old(View())) else old(View()))
    {
      granted := !activeWriter;
      if granted {
        activeReaders := activeReaders + 1;
      }
    }

    method AcquireRead() returns (granted: bool)
      modifies this
      ensures granted <==> !old(activeWriter) && old(waitingWriters) == 0
      ensures View() == (if granted then Enter(Reader, old(View())) else old(View()))
    {
      granted := !activeWriter && waitingWriters == 0;
      if granted {
        activeReaders := activeReaders + 1;
      }
    }

    method ReleaseRead()
      modifies this
      ensures View() == LeaveRead(old(View()))
    {
      if activeReaders > 0 {
        activeReaders := activeReaders - 1;
      }
    }

    /** The first step of AcquireWrite. */
    method AnnounceWrite()
      modifies this
      ensures View() == Announce(Writer, old(View()))
    {
      waitingWriters := waitingWriters + 1;
    }

    /** One round of the loop of AcquireWrite. */
    method AcquireWrite() returns (granted: bool)
      modifies this
      ensures granted <==> !old(activeWriter) && old(activeReaders) == 0
      ensures View() == (if granted then Enter(Writer, old(View())) else old(View()))
    {
      granted := !activeWriter && activeReaders == 0;
      if granted {
        waitingWriters := waitingWriters - 1;
        activeWriter := true;
      }
    }

    method ReleaseWrite()
      modifies this
      ensures View() == LeaveWrite(old(View()))
    {
      activeWriter := false;
    }

    /** Delete takes the token without waiting, or reports that the file is in use. */
    method AcquireForDelete() returns (granted: bool)
      modifies this
      ensures granted <==> old(View()).activeReaders <= 0 && !old(View()).activeWriter
      ensures View() == (if granted then old(View()).(activeWriter := true) else old(View()))
    {
      granted := !(activeReaders > 0 || activeWriter);
      if granted {
        activeWriter := true;
      }
    }
  }

  // ---------- all threads of one token ----------

  /** A thread that uses the token; threads outside the token are absent from the map. */
  datatype Phase = Asleep(kind: Kind) | Woken(kind: Kind) | Reading | Writing

  datatype System = System(token: Token, threads: map<nat, Phase>)

  datatype Event =
    | Arrive(thread: nat, kind: Kind)
    | Retry(thread: nat)
    | FinishRead(thread: nat)
    | FinishWrite(thread: nat)
    | TryDelete(thread: nat)

  const START := System(Token(0, false, 0), map[])

  /** Test the guard once: enter, or go to sleep. */
  function Attempt(threads: map<nat, Phase>, t: nat, kind: Kind, k: Token): System {
    if Guard(kind, k)
    then System(Enter(kind, k), threads[t := if kind.Writer? then Writing else Reading])
    else System(k, threads[t := Asleep(kind)])
  }

  function Broadcast(threads: map<nat, Phase>): map<nat, Phase> {
    map t | t in threads :: if threads[t].Asleep? then Woken(threads[t].kind) else threads[t]
  }

  predicate Enabled(s: System, e: Event) {
    match e
    case Arrive(t, _) => t !in s.threads
    case Retry(t) => t in s.threads && s.threads[t].Woken?
    case FinishRead(t) => t in s.threads && s.threads[t] == Reading
    case FinishWrite(t) => t in s.threads && s.threads[t] == Writing
    case TryDelete(t) => t !in s.threads
  }

  function Next(s: System, e: Event): System
    requires Enabled(s, e)
  {
    match e
    case Arrive(t, kind) => Attempt(s.threads, t, kind, Announce(kind, s.token))
    case Retry(t) => Attempt(s.threads, t, s.threads[t].kind, s.token)
    case FinishRead(t) => System(LeaveRead(s.token), Broadcast(s.threads - {t}))
    case FinishWrite(t) => System(LeaveWrite(s.token), Broadcast(s.threads - {t}))
    case TryDelete(t) =>
      if s.token.activeReaders > 0 || s.token.activeWriter then s
      else System(s.token.(activeWriter := true), s.threads[t := Writing])
  }

  /** The state after a list of events; events that are not enabled do nothing. */
  function After(s: System, events: seq<Event>): System {
    if events == [] then s
    else
      var before, e := After(s, events[..|events| - 1]), events[|events| - 1];
      if Enabled(before, e) then Next(before, e) else before
  }

  // ---------- invariants ----------

  ghost function Readers(s: System): set<nat> {
    set t | t in s.threads && s.threads[t] == Reading
  }

  ghost function Writers(s: System): set<nat> {
    set t | t in s.threads && s.threads[t] == Writing
  }

  ghost function PendingWriters(s: System): set<nat> {
    set t | t in s.threads && IsPendingWriter(s.threads[t])
  }

  /** The counters are the numbers of threads in each role. */
  ghost predicate Counted(s: System) {
    && s.token.activeReaders == |Readers(s)|
    && s.token.waitingWriters == |PendingWriters(s)|
    && |Writers(s)| == (if s.token.activeWriter then 1 else 0)
  }

  ghost predicate Exclusive(s: System) {
    s.token.activeWriter ==> s.token.activeReaders == 0
  }

  /** A thread asleep in cond.Wait waits for something that is false now. */
  ghost predicate NoLostWakeup(s: System) {
    forall t :: t in s.threads && s.threads[t].Asleep? ==> !Guard(s.threads[t].kind, s.token)
  }

  ghost predicate Inv(s: System) {
    Counted(s) && Exclusive(s) && NoLostWakeup(s)
  }

  ghost function Bit(b: bool): int {
    if b then 1 else 0
  }

  ghost predicate IsPendingWriter(p: Phase) {
    p == Asleep(Writer) || p == Woken(Writer)
  }

  /** a with the membership of t set to b. */
  ghost function Replaced(a: set<nat>, t: nat, b: bool): (r: set<nat>)
    ensures |r| == |a| - Bit(t in a) + Bit(b)
  {
    if b then a - {t} + {t} else a - {t}
  }

  /** The threads after one of them moves to phase p. */
  ghost function Move(s: System, t: nat, p: Phase, k: Token): System {
    System(k, s.threads[t := p])
  }

  lemma MoveReaders(s: System, t: nat, p: Phase, k: Token)
    ensures Readers(Move(s, t, p, k)) == Replaced(Readers(s), t, p == Reading)
  {
  }

  lemma MoveWriters(s: System, t: nat, p: Phase, k: Token)
    ensures Writers(Move(s, t, p, k)) == Replaced(Writers(s), t, p == Writing)
  {
  }

  lemma MovePending(s: System, t: nat, p: Phase, k: Token)
    ensures PendingWriters(Move(s, t, p, k)) == Replaced(PendingWriters(s), t, IsPendingWriter(p))
  {
  }

  /** How the head counts change when one thread moves to phase p. */
  lemma MoveCounts(s: System, t: nat, p: Phase, k: Token)
    ensures var s' := Move(s, t, p, k);
            && |Readers(s')| == |Readers(s)| - Bit(t in Readers(s)) + Bit(p == Reading)
            && |Writers(s')| == |Writers(s)| - Bit(t in Writers(s)) + Bit(p == Writing)
            && |PendingWriters(s')| == |PendingWriters(s)| - Bit(t in PendingWriters(s)) + Bit(IsPendingWriter(p))
  {
    MoveReaders(s, t, p, k);
    MoveWriters(s, t, p, k);
    MovePending(s, t, p, k);
  }

  lemma AttemptKeepsInv(s: System, t: nat, kind: Kind)
    requires Inv(s) && t in s.threads && s.threads[t] == Woken(kind)
    ensures Inv(Attempt(s.threads, t, kind, s.token))
  {
    var s' := Attempt(s.threads, t, kind, s.token);
    MoveCounts(s, t, s'.threads[t], s'.token);
  }

  /** An arriving thread is a woken thread that was just counted. */
  lemma ArriveKeepsInv(s: System, t: nat, kind: Kind)
    requires Inv(s) && t !in s.threads
    ensures Inv(Next(s, Arrive(t, kind)))
  {
    var mid := System(Announce(kind, s.token), s.threads[t := Woken(kind)]);
    MoveCounts(s, t, Woken(kind), mid.token);
    AttemptKeepsInv(mid, t, kind);
    var p := Next(s, Arrive(t, kind)).threads[t];
    assert mid.threads[t := p] == s.threads[t := p];
  }

  lemma FinishKeepsInv(s: System, e: Event)
    requires Inv(s) && Enabled(s, e) && (e.FinishRead? || e.FinishWrite?)
    ensures Inv(Next(s, e))
  {
    var s' := Next(s, e);
    assert PendingWriters(s') == PendingWriters(s);
    if e.FinishRead? {
      assert e.thread in Readers(s);
      assert Readers(s') == Readers(s) - {e.thread} && Writers(s') == Writers(s);
    } else {
      assert e.thread in Writers(s);
      assert Readers(s') == Readers(s) && Writers(s') == Writers(s) - {e.thread};
    }
  }

  lemma DeleteKeepsInv(s: System, t: nat)
    requires Inv(s) && t !in s.threads
    ensures Inv(Next(s, TryDelete(t)))
  {
    var s' := Next(s, TryDelete(t));
    if s' != s {
      MoveCounts(s, t, Writing, s'.token);
    }
  }

  lemma NextKeepsInv(s: System, e: Event)
    requires Inv(s) && Enabled(s, e)
    ensures Inv(Next(s, e))
  {
    match e
    case Arrive(t, kind) => ArriveKeepsInv(s, t, kind);
    case Retry(t) => AttemptKeepsInv(s, t, s.threads[t].kind);
    case FinishRead(_) => FinishKeepsInv(s, e);
    case FinishWrite(_) => FinishKeepsInv(s, e);
    case TryDelete(t) => DeleteKeepsInv(s, t);
  }

  lemma {:induction false} RunKeepsInv(s: System, events: seq<Event>)
    requires Inv(s)
    ensures Inv(After(s, events))
  {
    if events == [] {
    } else {
      var before, e := After(s, events[..|events| - 1]), events[|events| - 1];
      RunKeepsInv(s, events[..|events| - 1]);
      if Enabled(before, e) { NextKeepsInv(before, e); }
    }
  }

  // ---------- what holds of every run ----------

  lemma StartIsInv()
    ensures Inv(START)
  {
  }

  /** Counters count, a writer is alone, and no sleeper could proceed. */
  lemma EveryRunIsSafe(events: seq<Event>)
    ensures var s := After(START, events);
            && Counted(s) && NoLostWakeup(s)
            && (forall w, t :: w in Writers(s) && t in Readers(s) + Writers(s) ==> t == w)
  {
    StartIsInv();
    RunKeepsInv(START, events);
    HolderIsAlone(After(START, events));
  }

  lemma HolderIsAlone(s: System)
    requires Inv(s)
    ensures forall w, t :: w in Writers(s) && t in Readers(s) + Writers(s) ==> t == w
  {
    forall w, t | w in Writers(s) && t in Readers(s) + Writers(s) ensures t == w {
      assert |Writers(s)| == 1;
      assert |Readers(s)| == 0;
      assert |Writers(s) - {w}| == 0;
      assert t == w || t in Writers(s) - {w};
    }
  }

  lemma NobodyIn(s: System)
    requires Inv(s)
    ensures s.token.activeWriter <==> Writers(s) != {}
    ensures s.token.activeReaders == 0 <==> Readers(s) == {}
    ensures s.token.waitingWriters == 0 <==> PendingWriters(s) == {}
  {
  }

  /** The kind of the thread that tests its guard. */
  function KindOf(s: System, e: Event): Kind
    requires Enabled(s, e) && (e.Arrive? || e.Retry?)
  {
    if e.Arrive? then e.kind else s.threads[e.thread].kind
  }

  /** In every run a thread that arrives or tries again enters or goes to sleep, and no other thread
      moves. A Reader enters exactly when no writer is in or waits, asleep or woken; an InputReader
      when no writer is in; a Writer when nobody is in. */
  lemma EntersIff(events: seq<Event>, e: Event)
    requires Enabled(After(START, events), e) && (e.Arrive? || e.Retry?)
    ensures var s, s' := After(START, events), Next(After(START, events), e);
            var kind := KindOf(s, e);
            var phase := s'.threads[e.thread];
            && s'.threads == s.threads[e.thread := phase]
            && phase in {Asleep(kind), if kind == Writer then Writing else Reading}
            && (kind == Reader ==> (phase == Reading <==> Writers(s) == {} && PendingWriters(s) == {}))
            && (kind == InputReader ==> (phase == Reading <==> Writers(s) == {}))
            && (kind == Writer ==> (phase == Writing <==> Writers(s) == {} && Readers(s) == {}))
  {
    StartIsInv();
    RunKeepsInv(START, events);
    NobodyIn(After(START, events));
  }

  /** Delete gets the token exactly when nobody holds it, even past a waiting writer, and else
      changes nothing. */
  lemma DeleteEntersIff(events: seq<Event>, t: nat)
    requires Enabled(After(START, events), TryDelete(t))
    ensures var s := After(START, events);
            if Readers(s) == {} && Writers(s) == {} then Next(s, TryDelete(t)).threads == s.threads[t := Writing]
            else Next(s, TryDelete(t)) == s
  {
    StartIsInv();
    RunKeepsInv(START, events);
    NobodyIn(After(START, events));
  }

  /** A thread that leaves is gone and wakes everyone who sleeps. */
  lemma LeavingWakesAll(s: System, e: Event, t: nat)
    requires Enabled(s, e) && (e.FinishRead? || e.FinishWrite?)
    ensures var threads := Next(s, e).threads;
            && (t in threads <==> t in s.threads && t != e.thread)
            && (t in threads ==>
                  threads[t] == match s.threads[t] case Asleep(kind) => Woken(kind) case phase => phase)
  {
  }

  /** A thread that releases a read it acquired never finds the counter at zero. */
  lemma ReleaseReadGuardHolds(events: seq<Event>, t: nat)
    requires Enabled(After(START, events), FinishRead(t))
    ensures After(START, events).token.activeReaders > 0
  {
    StartIsInv();
    RunKeepsInv(START, events);
    assert t in Readers(After(START, events));
  }

  /** If threads wait while nobody holds the token, a waiter has been woken and may enter. */
  lemma SomeWaiterCanEnter(events: seq<Event>) returns (t: nat)
    requires var s := After(START, events); s.threads != map[] && Readers(s) == {} && Writers(s) == {}
    ensures var s := After(START, events);
            Enabled(s, Retry(t)) && Guard(s.threads[t].kind, s.token)
  {
    StartIsInv();
    RunKeepsInv(START, events);
    var s := After(START, events);
    if w :| w in PendingWriters(s) {
      t := w;
    } else {
      assert PendingWriters(s) == {};
      t :| t in s.threads;
      assert t !in Readers(s) && t !in Writers(s) && t !in PendingWriters(s);
    }
  }
}
