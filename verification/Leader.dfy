/**
 Choosing a leader (server_replication.go): what a server makes of heartbeats, and the
 election among the servers it believes alive. An empty ID means that none is known.
 */
module Leader {

  /** Go's order on strings. */
  predicate Less(a: string, b: string) {
    if b == "" then false
    else if a == "" then true
    else if a[0] != b[0] then a[0] < b[0]
    else Less(a[1..], b[1..])
  }

  lemma {:induction false} LessIrreflexive(a: string)
    ensures !Less(a, a)
  {
    if a == "" {
    } else {
      LessIrreflexive(a[1..]);
    }
  }

  lemma {:induction false} LessTransitive(a: string, b: string, c: string)
    requires Less(a, b) && Less(b, c)
    ensures Less(a, c)
  {
    if a == "" || a[0] != b[0] || b[0] != c[0] {
    } else {
      LessTransitive(a[1..], b[1..], c[1..]);
    }
  }

  lemma {:induction false} LessTotal(a: string, b: string)
    ensures Less(a, b) || a == b || Less(b, a)
  {
    if a == "" || b == "" || a[0] != b[0] {
    } else {
      LessTotal(a[1..], b[1..]);
      if a[1..] == b[1..] { assert a == [a[0]] + a[1..] == [b[0]] + b[1..] == b; }
    }
  }

  /** a and b agree up to i, where a ends or has the smaller character. */
  ghost predicate DiffersAt(a: string, b: string, i: nat) {
    && i <= |a| && i < |b| && a[..i] == b[..i]
    && (i == |a| || a[i] < b[i])
  }

  /** A string is less when it is a proper prefix or smaller at the first difference. */
  lemma {:induction false} LessIff(a: string, b: string)
    ensures Less(a, b) <==> exists i: nat :: DiffersAt(a, b, i)
  {
    if b == "" {
    } else if a == "" {
      assert DiffersAt(a, b, 0);
    } else if a[0] != b[0] {
      if Less(a, b) { assert DiffersAt(a, b, 0); }
      forall i: nat | DiffersAt(a, b, i) ensures a[0] < b[0] {
        if i > 0 { assert a[..i][0] == b[..i][0]; }
      }
    } else {
      LessIff(a[1..], b[1..]);
      SameHead(a, b);
    }
  }

  lemma SameHead(a: string, b: string)
    requires a != "" && b != "" && a[0] == b[0]
    ensures (exists i: nat :: DiffersAt(a, b, i)) <==> exists i: nat :: DiffersAt(a[1..], b[1..], i)
  {
    forall i: nat | DiffersAt(a, b, i) ensures i > 0 && DiffersAt(a[1..], b[1..], i - 1) {
      assert a[1..][..i - 1] == a[..i][1..] && b[1..][..i - 1] == b[..i][1..];
    }
    forall i: nat | DiffersAt(a[1..], b[1..], i) ensures DiffersAt(a, b, i + 1) {
      assert a[..i + 1] == [a[0]] + a[1..][..i] && b[..i + 1] == [b[0]] + b[1..][..i];
    }
  }

  /** No candidate is below x. */
  ghost predicate IsLeast(x: string, ids: seq<string>) {
    x in ids && forall y :: y in ids ==> !Less(y, x)
  }

  lemma LeastUnique(x: string, y: string, a: seq<string>, b: seq<string>)
    requires IsLeast(x, a) && IsLeast(y, b) && forall z :: z in a <==> z in b
    ensures x == y
  {
    LessTotal(x, y);
  }

  // ---------- heartbeats ----------

  /** The leader after a heartbeat: a sender with a greater ID is refused. */
  function Hear(leader: string, sender: string): string {
    if leader != "" && Less(leader, sender) then leader else sender
  }

  function HearAll(leader: string, senders: seq<string>): string {
    if senders == [] then leader
    else Hear(HearAll(leader, senders[..|senders| - 1]), senders[|senders| - 1])
  }

  datatype ServerInfo = ServerInfo(id: string, timestamp: int, alive: bool)

  class Follower {
    var primaryID: string
    var servers: map<string, ServerInfo>

    constructor (primaryID: string, servers: map<string, ServerInfo>)
      ensures this.primaryID == primaryID && this.servers == servers
    {
      this.primaryID, this.servers := primaryID, servers;
    }

    method SendHeartbeat(sender: string, timestamp: int) returns (success: bool)
      modifies this
      ensures primaryID == Hear(old(primaryID), sender)
      ensures success <==> old(primaryID) == "" || !Less(old(primaryID), sender)
      ensures sender in servers && servers[sender].alive
      ensures servers == old(servers)[sender := servers[sender]]
      ensures sender in old(servers) ==> servers[sender] == old(servers)[sender].(alive := true)
      ensures sender !in old(servers) ==> servers[sender] == ServerInfo(sender, timestamp, true)
    {
      if sender !in servers {
        servers := servers[sender := ServerInfo(sender, timestamp, true)];
      } else {
        servers := servers[sender := servers[sender].(alive := true)];
      }
      if primaryID != "" {
        if Less(primaryID, sender) {
          return false;
        }
      }
      primaryID := sender;
      return true;
    }
  }

  /** The IDs among which the outcome is the least: the leader at the start, unless none was
      known, and all senders; but an empty sender makes the server forget all that came before. */
  ghost function Candidates(leader: string, senders: seq<string>): seq<string> {
    if senders == [] then (if leader == "" then [] else [leader])
    else if senders[|senders| - 1] == "" then []
    else Candidates(leader, senders[..|senders| - 1]) + [senders[|senders| - 1]]
  }

  lemma LeastSnoc(x: string, ids: seq<string>, y: string)
    requires IsLeast(x, ids)
    ensures IsLeast(if Less(x, y) then x else y, ids + [y])
  {
    LessIrreflexive(y);
    var m := if Less(x, y) then x else y;
    forall z | z in ids + [y] ensures !Less(z, m) {
      if m == y && z in ids && Less(z, y) {
        LessTotal(x, y);
        if Less(y, x) { LessTransitive(z, y, x); }
      }
      if m == x && z == y && Less(y, x) { LessTransitive(x, y, x); LessIrreflexive(x); }
    }
  }

  /** The leader after any heartbeats is the least candidate, and none is known exactly when
      there is no candidate. */
  lemma {:induction false} LeaderIsLeast(leader: string, senders: seq<string>)
    ensures var r, ids := HearAll(leader, senders), Candidates(leader, senders);
            && (r == "" <==> ids == []) && (ids != [] ==> IsLeast(r, ids)) && "" !in ids
  {
    if senders == [] {
      LessIrreflexive(leader);
    } else {
      var front, x := senders[..|senders| - 1], senders[|senders| - 1];
      LeaderIsLeast(leader, front);
      var ids := Candidates(leader, front);
      if x != "" {
        if ids == [] {
          LessIrreflexive(x);
        } else {
          LeastSnoc(HearAll(leader, front), ids, x);
        }
      }
    }
  }

  lemma {:induction false} CandidatesWithoutEmpty(leader: string, senders: seq<string>)
    requires "" !in senders
    ensures Candidates(leader, senders) == (if leader == "" then senders else [leader] + senders)
  {
    if senders == [] {
    } else {
      var front, x := senders[..|senders| - 1], senders[|senders| - 1];
      assert senders == front + [x];
      CandidatesWithoutEmpty(leader, front);
    }
  }

  /** Some sender takes the place of this leader, or has its ID. */
  ghost predicate Overruled(leader: string, senders: seq<string>) {
    exists x :: x in senders && (leader == "" || !Less(leader, x))
  }

  lemma OverruledIsLeast(leader: string, senders: seq<string>)
    requires "" !in senders && Overruled(leader, senders)
    ensures IsLeast(HearAll(leader, senders), senders)
  {
    var x :| x in senders && (leader == "" || !Less(leader, x));
    LeaderIsLeast(leader, senders);
    CandidatesWithoutEmpty(leader, senders);
    LessTotal(leader, x);
  }

  lemma NotOverruledStays(leader: string, senders: seq<string>)
    requires "" !in senders && !Overruled(leader, senders)
    ensures HearAll(leader, senders) == leader && leader !in senders
  {
    if leader in senders { LessIrreflexive(leader); }
    if senders != [] {
      assert senders[0] in senders;
      LeaderIsLeast(leader, senders);
      CandidatesWithoutEmpty(leader, senders);
    }
  }

  /** Servers that hear the same senders, in any order and number, agree exactly when they start
      alike or the start of each is overruled by some sender. */
  lemma SameSendersSameLeaderIff(first: string, second: string, a: seq<string>, b: seq<string>)
    requires "" !in a && "" !in b && forall x :: x in a <==> x in b
    ensures HearAll(first, a) == HearAll(second, b)
            <==> first == second || (Overruled(first, a) && Overruled(second, b))
  {
    assert Overruled(first, a) <==> Overruled(first, b);
    if Overruled(first, a) { OverruledIsLeast(first, a); } else { NotOverruledStays(first, a); }
    if Overruled(second, b) { OverruledIsLeast(second, b); } else { NotOverruledStays(second, b); }
    if Overruled(first, a) && Overruled(second, b) {
      LeastUnique(HearAll(first, a), HearAll(second, b), a, b);
    }
  }

  // ---------- election ----------

  function AliveIds(infos: seq<ServerInfo>): seq<string> {
    if infos == [] then []
    else AliveIds(infos[..|infos| - 1]) + if infos[|infos| - 1].alive then [infos[|infos| - 1].id] else []
  }

  lemma {:induction false} AliveIdsAre(infos: seq<ServerInfo>, id: string)
    ensures id in AliveIds(infos) <==> exists i :: 0 <= i < |infos| && infos[i].alive && infos[i].id == id
  {
    if infos == [] {
    } else {
      var n := |infos| - 1;
      AliveIdsAre(infos[..n], id);
      if i :| 0 <= i < n && infos[i].alive && infos[i].id == id { assert infos[..n][i] == infos[i]; }
    }
  }

  /** The leader is the ID of an alive server, and no alive server has a smaller one. */
  ghost predicate IsElected(leader: string, infos: seq<ServerInfo>) {
    && (exists i :: 0 <= i < |infos| && infos[i].alive && infos[i].id == leader)
    && forall i :: 0 <= i < |infos| && infos[i].alive ==> !Less(infos[i].id, leader)
  }

  lemma LeastIsElected(leader: string, infos: seq<ServerInfo>)
    requires IsLeast(leader, AliveIds(infos))
    ensures IsElected(leader, infos)
  {
    AliveIdsAre(infos, leader);
    forall i | 0 <= i < |infos| && infos[i].alive ensures !Less(infos[i].id, leader) {
      AliveIdsAre(infos, infos[i].id);
    }
  }

  /** infos are the values of the map in the order in which the iteration meets them. */
  method ElectPrimary(infos: seq<ServerInfo>) returns (leader: string)
    ensures leader == HearAll("", AliveIds(infos))
    ensures (forall i :: 0 <= i < |infos| && infos[i].alive ==> infos[i].id != "") ==>
              if leader == "" then forall i :: 0 <= i < |infos| ==> !infos[i].alive else IsElected(leader, infos)
  {
    leader := "";
    for i := 0 to |infos|
      invariant leader == HearAll("", AliveIds(infos[..i]))
    {
      assert infos[..i + 1][..i] == infos[..i];
      if !infos[i].alive {
        assert AliveIds(infos[..i]) + [] == AliveIds(infos[..i]);
        continue;
      }
      ElectStep(leader, infos[i].id);
      HearAllSnoc("", AliveIds(infos[..i]), infos[i].id);
      if leader == "" || Less(infos[i].id, leader) {
        leader := infos[i].id;
      }
    }
    assert infos[..|infos|] == infos;
    if forall i :: 0 <= i < |infos| && infos[i].alive ==> infos[i].id != "" { ElectedIsLeast(infos); }
  }

  lemma ElectedIsLeast(infos: seq<ServerInfo>)
    requires forall i :: 0 <= i < |infos| && infos[i].alive ==> infos[i].id != ""
    ensures var leader := HearAll("", AliveIds(infos));
            if leader == "" then forall i :: 0 <= i < |infos| ==> !infos[i].alive else IsElected(leader, infos)
  {
    AliveIdsAre(infos, "");
    LeaderIsLeast("", AliveIds(infos));
    CandidatesWithoutEmpty("", AliveIds(infos));
    if AliveIds(infos) == [] {
      forall i | 0 <= i < |infos| ensures !infos[i].alive { AliveIdsAre(infos, infos[i].id); }
    } else {
      LeastIsElected(HearAll("", AliveIds(infos)), infos);
    }
  }

  lemma HearAllSnoc(leader: string, senders: seq<string>, x: string)
    ensures HearAll(leader, senders + [x]) == Hear(HearAll(leader, senders), x)
  {
  }

  /** The election's comparison and the heartbeat's decide alike. */
  lemma ElectStep(leader: string, x: string)
    ensures Hear(leader, x) == if leader == "" || Less(x, leader) then x else leader
  {
    LessTotal(leader, x);
    if Less(leader, x) && Less(x, leader) {
      LessTransitive(leader, x, leader);
      LessIrreflexive(leader);
    }
  }

  /** The elected leader does not depend on the iteration order exactly when no server with
      an empty ID is alive next to one with a non-empty ID. */
  lemma ElectionOrderFreeIff(ids: seq<string>)
    ensures (forall a, b {:trigger HearAll("", a), HearAll("", b)} ::
               multiset(a) == multiset(ids) && multiset(b) == multiset(ids) ==> HearAll("", a) == HearAll("", b))
            <==> !("" in ids && exists x :: x in ids && x != "")
  {
    if "" !in ids {
      forall a, b | multiset(a) == multiset(ids) && multiset(b) == multiset(ids)
        ensures HearAll("", a) == HearAll("", b)
      {
        SameElements(a, ids);
        SameElements(b, ids);
        SameSendersSameLeaderIff("", "", a, b);
      }
    } else if forall x :: x in ids ==> x == "" {
      forall a | multiset(a) == multiset(ids) ensures HearAll("", a) == "" {
        SameElements(a, ids);
        forall i | 0 <= i < |a| ensures a[i] == "" { assert a[i] in ids; }
        AllEmpty(a);
      }
    } else {
      OrderMatters(ids);
    }
  }

  lemma SameElements(a: seq<string>, b: seq<string>)
    requires multiset(a) == multiset(b)
    ensures forall x :: x in a <==> x in b
  {
    forall x ensures x in a <==> x in b {
      assert x in multiset(a) <==> x in a;
      assert x in multiset(b) <==> x in b;
    }
  }

  lemma {:induction false} AllEmpty(a: seq<string>)
    requires forall i :: 0 <= i < |a| ==> a[i] == ""
    ensures HearAll("", a) == ""
  {
  }

  /** Meeting the empty ID last, or another one last, elects differently. */
  lemma OrderMatters(ids: seq<string>)
    requires "" in ids && exists x :: x in ids && x != ""
    ensures exists a, b {:trigger HearAll("", a), HearAll("", b)} ::
              multiset(a) == multiset(ids) && multiset(b) == multiset(ids) && HearAll("", a) != HearAll("", b)
  {
    var x :| x in ids && x != "";
    var a := MoveLast(ids, "");
    var b := MoveLast(ids, x);
    LeaderIsLeast("", a);
    LeaderIsLeast("", b);
    assert Candidates("", a) == [];
    assert Candidates("", b) != [];
  }

  lemma MoveLast(ids: seq<string>, x: string) returns (a: seq<string>)
    requires x in ids
    ensures multiset(a) == multiset(ids) && a != [] && a[|a| - 1] == x
  {
    var i :| 0 <= i < |ids| && ids[i] == x;
    a := ids[..i] + ids[i + 1..] + [x];
    assert ids == ids[..i] + [x] + ids[i + 1..];
  }
}
