/**
 The models of a dirty Close agree. The steps of CommitPath, taken by one Close that runs alone,
 and the actions of NoRepeatsAnywhere do to log, files and prime sets what Requests says of the
 whole call.
 */
module OneAtATime {
  import opened Base
  import opened NumberText
  import opened PrimeSets
  import opened Replication
  import Any = NoRepeatsAnywhere
  import Path = CommitPath
  import Req = Requests
  import SharedLog

  /** A server with no Close under way, seen from one file. */
  ghost predicate Shows(p: Req.Primary, name: string, s: Path.State) {
    && s.rep == p.rep && s.stored == Req.StoredSet(p, name)
    && s.ver == Path.Idle(Req.VersionOf(p, name), s.ver.wins) && s.work == map[]
  }

  /** The steps of the Close, with or without a majority. */
  function StepsOf(p: Req.Primary, c: Req.Call, name: string): seq<Path.Step> {
    var order := c.order(Req.StoredSet(p, name) + Stored(c.req.data));
    var logged := Path.UntilLogged(Req.VersionOf(p, name), c.req.data, order);
    if Req.ReachesMajority(p, c.acks)
    then logged + [Path.Commit(0)] + [Path.Install(0)] + [Path.Bump(0)] + [Path.Release(0)]
    else logged + [Path.NoMajority(0)] + [Path.Release(0)]
  }

  lemma SameEntry(p: Req.Primary, c: Req.Call, name: string, s: Path.State)
    requires Shows(p, name, s)
    ensures Path.EntryFor(name, s, c.order(s.stored + Stored(c.req.data))) == Req.EntryOf(p, c, name)
  {
  }

  /** An admitted Close leads from a state that shows the server to one that shows it again. */
  lemma CloseRefinesSteps(p: Req.Primary, c: Req.Call, name: string, s: Path.State)
    requires 0 <= p.rep.lastApplied && Req.IsMapOrder(c.order) && Req.Admitted(p, c.req, name) && Shows(p, name, s)
    ensures var p' := Req.Close(p, c.req, c.order, c.acks).0;
            var s' := Path.AfterSteps(name, s, StepsOf(p, c, name));
            && Shows(p', name, s')
            && s'.committed == s.committed + (if Req.ReachesMajority(p, c.acks) then [Parsed(c.req.data)] else [])
  {
    var order := c.order(s.stored + Stored(c.req.data));
    SameEntry(p, c, name, s);
    if Req.ReachesMajority(p, c.acks) {
      Req.CommittedShape(p, c, name);
      Path.SoloCloseCommits(name, s, c.req.data, order);
    } else {
      Req.FailedClose(p, c);
      Path.SoloCloseFails(name, s, c.req.data, order);
    }
  }

  // ---------- servers without discipline ----------

  /** What a Close does, as actions of server id. */
  ghost function ActionsOf(p: Req.Primary, c: Req.Call, id: nat): seq<Any.Action> {
    match SharedLog.Target(p, c)
    case None => []
    case Some(name) =>
      var numbers := Req.StoredSet(p, name) + Stored(c.req.data);
      var e := Req.EntryOf(p, c, name);
      var close := [] + [Any.CloseAt(id, name, c.req.data, c.order(numbers), e.index, e.version)];
      if Req.ReachesMajority(p, c.acks)
      then close + [Any.CommitAt(id, e.index)] + [Any.InstallAt(id, name, numbers)]
      else close
  }

  lemma OneAction(s: Any.State, actions: seq<Any.Action>, a: Any.Action)
    requires Any.Enabled(Any.After(s, actions), a)
    ensures Any.After(s, actions + [a]) == Any.Next(Any.After(s, actions), a)
  {
    assert (actions + [a])[..|actions|] == actions;
  }

  lemma CloseAction(s: Any.State, id: nat, p: Req.Primary, c: Req.Call, name: string)
    requires id in s.nodes && s.nodes[id] == Any.Node(p.rep, p.sets) && 0 <= p.rep.lastApplied
    requires Req.IsMapOrder(c.order)
    ensures var numbers, e := Req.StoredSet(p, name) + Stored(c.req.data), Req.EntryOf(p, c, name);
            var a := Any.CloseAt(id, name, c.req.data, c.order(numbers), e.index, e.version);
            && Any.Enabled(s, a) && id in Any.Next(s, a).nodes
            && Any.Next(s, a).nodes[id] == Any.Node(Req.Logged(p.rep, e), p.sets)
  {
  }

  lemma CommitActions(s: Any.State, id: nat, n: Any.Node, index: int, name: string, numbers: set<uint64>)
    requires id in s.nodes && s.nodes[id] == n && 0 <= n.rep.lastApplied
    ensures Any.Enabled(s, Any.CommitAt(id, index))
    ensures var s1 := Any.Next(s, Any.CommitAt(id, index));
            && Any.Enabled(s1, Any.InstallAt(id, name, numbers))
            && var s2 := Any.Next(s1, Any.InstallAt(id, name, numbers));
            && id in s2.nodes
            && s2.nodes[id] == Any.Node(ApplyCommitted(n.rep.(commitIndex := index)), n.sets[name := numbers])
  {
  }

  /** Every Close of a primary is covered by the runs of NoRepeatsAnywhere. */
  lemma CloseIsActions(p: Req.Primary, c: Req.Call, s: Any.State, id: nat)
    requires 0 <= p.rep.lastApplied && Req.IsMapOrder(c.order)
    requires id in s.nodes && s.nodes[id] == Any.Node(p.rep, p.sets)
    ensures var p', s' := Req.Close(p, c.req, c.order, c.acks).0, Any.After(s, ActionsOf(p, c, id));
            id in s'.nodes && s'.nodes[id] == Any.Node(p'.rep, p'.sets)
  {
    SharedLog.CloseEffect(p, c);
    match SharedLog.Target(p, c)
    case None =>
    case Some(name) =>
      var numbers, e := Req.StoredSet(p, name) + Stored(c.req.data), Req.EntryOf(p, c, name);
      var a := Any.CloseAt(id, name, c.req.data, c.order(numbers), e.index, e.version);
      CloseAction(s, id, p, c, name);
      OneAction(s, [], a);
      if Req.ReachesMajority(p, c.acks) {
        var s1 := Any.After(s, [] + [a]);
        CommitActions(s1, id, s1.nodes[id], e.index, name, numbers);
        OneAction(s, [] + [a], Any.CommitAt(id, e.index));
        OneAction(s, [] + [a] + [Any.CommitAt(id, e.index)], Any.InstallAt(id, name, numbers));
      }
  }
}
