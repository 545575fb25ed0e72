/**
 The client's file cache, its local copies and its least-recently-used list (client_basics.go).
 What the server and the local disk answer is a parameter of each operation.
 */
module ClientCache {
  import opened Base

  const MAX_CACHE_ENTRIES: nat := 20

  /** text is the content of the local copy. */
  datatype CacheEntry =
    CacheEntry(version: int32, dirty: bool, fd: int32, closed: bool, mode: Mode, valid: bool, text: string)

  datatype Cache = Cache(entries: map<string, CacheEntry>, lru: seq<string>)

  /** The answer to an Open or Create request. */
  datatype Opened = Opened(version: int32, fd: int32)

  // ---------- the list ----------

  /** The first position from i on that holds the name. */
  function Find(lru: seq<string>, name: string, i: nat): (r: Option<nat>)
    requires i <= |lru|
    ensures r.Some? ==> i <= r.value < |lru| && lru[r.value] == name
    ensures r.None? ==> forall k :: i <= k < |lru| ==> lru[k] != name
    decreases |lru| - i
  {
    if i == |lru| then None else if lru[i] == name then Some(i) else Find(lru, name, i + 1)
  }

  function Dropped(lru: seq<string>, name: string): seq<string> {
    match Find(lru, name, 0)
    case Some(i) => Without(lru, i)
    case None => lru
  }

  function Touched(lru: seq<string>, name: string): seq<string> {
    Dropped(lru, name) + [name]
  }

  predicate Evictable(entries: map<string, CacheEntry>, name: string) {
    name in entries && entries[name].closed && !entries[name].dirty && entries[name].fd == 0
  }

  /** The first position from i on whose entry may go. */
  function FindVictim(c: Cache, i: nat): (r: Option<nat>)
    requires i <= |c.lru|
    ensures r.Some? ==> i <= r.value < |c.lru| && Evictable(c.entries, c.lru[r.value])
                        && forall k :: i <= k < r.value ==> !Evictable(c.entries, c.lru[k])
    ensures r.None? ==> forall k :: i <= k < |c.lru| ==> !Evictable(c.entries, c.lru[k])
    decreases |c.lru| - i
  {
    if i == |c.lru| then None else if Evictable(c.entries, c.lru[i]) then Some(i) else FindVictim(c, i + 1)
  }

  /** None when every file is in use. */
  function Evicted(c: Cache): Option<Cache> {
    match FindVictim(c, 0)
    case Some(i) => Some(Cache(c.entries - {c.lru[i]}, Without(c.lru, i)))
    case None => None
  }

  function MakeRoom(c: Cache): Option<Cache> {
    if |c.entries| >= MAX_CACHE_ENTRIES then Evicted(c) else Some(c)
  }

  // ---------- the operations ----------

  datatype Operation =
    | Create(name: string, answer: Option<Opened>)
    | Open(name: string, mode: Mode, auth: Option<int32>, answer: Option<Opened>)
    | Read(name: string, ok: bool, fetched: string)
    | Write(name: string, ok: bool, data: string)
    | Append(name: string, ok: bool, data: string)
    | Commit(name: string, newVersion: Option<int32>)
    | Close(name: string, newVersion: Option<int32>)
    | Delete(name: string, removed: bool, ok: bool)

  /** Create and Open truncate the local copy and fetch nothing. */
  function Fresh(answer: Opened, closed: bool, mode: Mode): CacheEntry {
    CacheEntry(answer.version, false, answer.fd, closed, mode, false, "")
  }

  /** A written entry waits for a Commit or Close and is not read locally. */
  function Written(e: CacheEntry, text: string): CacheEntry {
    e.(dirty := true, valid := false, text := text)
  }

  /** A Read of an entry that is not valid replaces the local copy. */
  function AfterRead(e: CacheEntry, fetched: string): CacheEntry {
    if e.valid then e else e.(text := fetched)
  }

  function Store(c: Cache, name: string, e: CacheEntry): Cache {
    Cache(c.entries[name := e], Touched(c.lru, name))
  }

  function Forget(c: Cache, name: string): Cache {
    Cache(c.entries - {name}, c.lru)
  }

  function Unlist(c: Cache, name: string): Cache {
    Cache(c.entries, Dropped(c.lru, name))
  }

  /** The new cache, and whether the operation touched its file. */
  function Step(c: Cache, op: Operation): (Cache, bool) {
    var name := op.name;
    match op
    case Create(_, answer) =>
      var room := MakeRoom(c);
      if room.None? then (c, false)
      else if answer.None? then (room.value, false)
      else (Store(room.value, name, Fresh(answer.value, true, ReadMode)), true)
    case Open(_, mode, auth, answer) =>
      if name in c.entries && c.entries[name].dirty then (c, false)
      else if name in c.entries && auth.None? then (c, false)
      else if name in c.entries && auth.value == c.entries[name].version then
        var e := c.entries[name];
        if !e.closed && e.mode != mode && e.mode == ReadMode then (c, false)
        else
          var seen := e.(valid := true, mode := mode);
          (Store(c, name, if answer.None? then seen else seen.(fd := answer.value.fd, closed := false)), true)
      else
        var room := if name in c.entries then Some(c) else MakeRoom(c);
        if room.None? then (c, false)
        else if answer.None? then (room.value, false)
        else (Store(room.value, name, Fresh(answer.value, false, mode)), true)
    case Read(_, ok, fetched) =>
      if name !in c.entries || !ok then (c, false)
      else (Store(c, name, AfterRead(c.entries[name], fetched)), true)
    case Write(_, ok, data) =>
      if name !in c.entries || c.entries[name].mode == ReadMode || !ok then (c, false)
      else (Store(c, name, Written(c.entries[name], data)), true)
    case Append(_, ok, data) =>
      if name !in c.entries || c.entries[name].mode == ReadMode || !ok then (c, false)
      else (Store(c, name, Written(c.entries[name], c.entries[name].text + data)), true)
    case Commit(_, answer) =>
      if name !in c.entries || c.entries[name].closed || !c.entries[name].dirty || answer.None? then (c, false)
      else (c.(entries := c.entries[name := c.entries[name].(version := answer.value, dirty := false)]), false)
    case Close(_, answer) =>
      if name !in c.entries || answer.None? then (c, false)
      else (Store(c, name, c.entries[name].(version := answer.value, dirty := false, closed := true, fd := 0)), true)
    case Delete(_, removed, ok) =>
      if name in c.entries && (c.entries[name].dirty || !removed) then (c, false)
      else
        (if ok then Unlist(Forget(c, name), name) else Forget(c, name), false)
  }

  /** The text a Commit or Close sends to the server. */
  function Sent(c: Cache, op: Operation): Option<string> {
    if op.name !in c.entries || !c.entries[op.name].dirty then None
    else if op.Close? || (op.Commit? && !c.entries[op.name].closed) then Some(c.entries[op.name].text)
    else None
  }

  /** The text a Read returns. */
  function Got(c: Cache, op: Operation): Option<string> {
    if !op.Read? || op.name !in c.entries || !op.ok then None
    else Some(if c.entries[op.name].valid then c.entries[op.name].text else op.fetched)
  }

  // ---------- the client object ----------

  class Client {
    var cache: map<string, CacheEntry>
    var lru: seq<string>

    constructor ()
      ensures View() == Cache(map[], [])
    {
      cache, lru := map[], [];
    }

    function View(): Cache
      reads this
    {
      Cache(cache, lru)
    }

    /** Splices the first occurrence out of the list, if there is one. */
    method DropFromLRU(name: string)
      modifies this`lru
      ensures lru == Dropped(old(lru), name)
    {
      for i := 0 to |lru|
        invariant lru == old(lru) && Find(lru, name, i) == Find(lru, name, 0)
      {
        if lru[i] == name {
          lru := lru[..i] + lru[i + 1..];
          return;
        }
      }
    }

    method TouchLRU(name: string)
      modifies this`lru
      ensures lru == Touched(old(lru), name)
    {
      DropFromLRU(name);
      lru := lru + [name];
    }

    method EvictFromCache() returns (ok: bool)
      modifies this
      ensures ok <==> Evicted(old(View())).Some?
      ensures View() == if ok then Evicted(old(View())).value else old(View())
    {
      for i := 0 to |lru|
        invariant View() == old(View()) && FindVictim(View(), i) == FindVictim(View(), 0)
      {
        var name := lru[i];
        if name !in cache {
          continue;
        }
        var e := cache[name];
        if e.closed && !e.dirty && e.fd == 0 {
          cache := cache - {name};
          lru := lru[..i] + lru[i + 1..];
          return true;
        }
      }
      return false;
    }

    method EnsureRoom() returns (ok: bool)
      modifies this
      ensures ok <==> MakeRoom(old(View())).Some?
      ensures View() == if ok then MakeRoom(old(View())).value else old(View())
    {
      ok := true;
      if |cache| >= MAX_CACHE_ENTRIES {
        ok := EvictFromCache();
      }
    }

    method CreateFile(name: string, answer: Option<Opened>) returns (ok: bool)
      modifies this
      ensures (View(), ok) == Step(old(View()), Create(name, answer))
    {
      var room := EnsureRoom();
      if !room || answer.None? {
        return false;
      }
      cache := cache[name := Fresh(answer.value, true, ReadMode)];
      TouchLRU(name);
      return true;
    }

    method OpenFile(name: string, mode: Mode, auth: Option<int32>, answer: Option<Opened>) returns (touched: bool)
      modifies this
      ensures (View(), touched) == Step(old(View()), Open(name, mode, auth, answer))
    {
      if name in cache {
        var e := cache[name];
        if e.dirty || auth.None? {
          return false;
        }
        if e.version == auth.value {
          if !e.closed && e.mode != mode && e.mode == ReadMode {
            return false;
          }
          cache := cache[name := e.(valid := true, mode := mode)];
          TouchLRU(name);
          if answer.Some? {
            cache := cache[name := cache[name].(fd := answer.value.fd, closed := false)];
            assert cache == old(cache)[name := cache[name]];
          }
          return true;
        }
      } else {
        var room := EnsureRoom();
        if !room {
          return false;
        }
      }
      if answer.None? {
        return false;
      }
      cache := cache[name := Fresh(answer.value, false, mode)];
      TouchLRU(name);
      return true;
    }

    /** The second result is the text read, if any. */
    method ReadFile(name: string, ok: bool, fetched: string) returns (touched: bool, got: Option<string>)
      modifies this
      ensures touched <==> name in old(cache) && ok
      ensures (View(), touched) == Step(old(View()), Read(name, ok, fetched))
      ensures got == Got(old(View()), Read(name, ok, fetched))
    {
      if name !in cache || !ok {
        return false, None;
      }
      if !cache[name].valid {
        cache := cache[name := cache[name].(text := fetched)];
      }
      assert cache == old(cache)[name := cache[name]];
      TouchLRU(name);
      return true, Some(cache[name].text);
    }

    method WriteFile(name: string, ok: bool, data: string) returns (touched: bool)
      modifies this
      ensures touched <==> name in old(cache) && old(cache)[name].mode != ReadMode && ok
      ensures (View(), touched) == Step(old(View()), Write(name, ok, data))
    {
      if name !in cache || cache[name].mode == ReadMode || !ok {
        return false;
      }
      cache := cache[name := cache[name].(text := data, dirty := true, valid := false)];
      TouchLRU(name);
      return true;
    }

    method AppendFile(name: string, ok: bool, data: string) returns (touched: bool)
      modifies this
      ensures touched <==> name in old(cache) && old(cache)[name].mode != ReadMode && ok
      ensures (View(), touched) == Step(old(View()), Append(name, ok, data))
    {
      if name !in cache || cache[name].mode == ReadMode || !ok {
        return false;
      }
      cache := cache[name := cache[name].(text := cache[name].text + data, dirty := true, valid := false)];
      TouchLRU(name);
      return true;
    }

    method CommitFile(name: string, answer: Option<int32>) returns (sent: Option<string>)
      modifies this
      ensures View() == Step(old(View()), Commit(name, answer)).0
      ensures sent == Sent(old(View()), Commit(name, answer))
    {
      if name !in cache || cache[name].closed || !cache[name].dirty {
        return None;
      }
      sent := Some(cache[name].text);
      if answer.Some? {
        cache := cache[name := cache[name].(version := answer.value, dirty := false)];
      }
    }

    method CloseFile(name: string, answer: Option<int32>) returns (ok: bool, sent: Option<string>)
      modifies this
      ensures ok <==> name in old(cache) && answer.Some?
      ensures (View(), ok) == Step(old(View()), Close(name, answer))
      ensures sent == Sent(old(View()), Close(name, answer))
    {
      if name !in cache {
        return false, None;
      }
      sent := if cache[name].dirty then Some(cache[name].text) else None;
      if answer.None? {
        return false, sent;
      }
      cache := cache[name := cache[name].(version := answer.value, dirty := false, closed := true, fd := 0)];
      TouchLRU(name);
      ok := true;
    }

    method DeleteFile(name: string, removed: bool, accepted: bool)
      modifies this
      ensures View() == Step(old(View()), Delete(name, removed, accepted)).0
    {
      if name in cache {
        if cache[name].dirty || !removed {
          return;
        }
        cache := cache - {name};
      } else {
        assert cache - {name} == cache;
      }
      if !accepted {
        return;
      }
      DropFromLRU(name);
    }
  }

  // ---------- runs and their touch history ----------

  function RunFrom(c: Cache, ops: seq<Operation>): Cache {
    if ops == [] then c else Step(RunFrom(c, ops[..|ops| - 1]), ops[|ops| - 1]).0
  }

  function Run(ops: seq<Operation>): Cache {
    RunFrom(Cache(map[], []), ops)
  }

  lemma RunSnoc(ops: seq<Operation>, op: Operation)
    ensures Run(ops + [op]) == Step(Run(ops), op).0
  {
    assert (ops + [op])[..|ops|] == ops;
  }

  /** There is room for another file, or some cached file is closed, clean and without descriptor. */
  ghost predicate HasRoom(entries: map<string, CacheEntry>) {
    || |entries| < 20
    || exists name :: name in entries && entries[name].closed && !entries[name].dirty && entries[name].fd == 0
  }

  /** Opening a cached file finds it unchanged at the server: the equal version is enough unless the
      file is open for reading and another mode is asked for. Otherwise the server must answer. */
  ghost predicate IsOpened(e: CacheEntry, mode: Mode, version: int32, answer: Option<Opened>) {
    if version == e.version then e.closed || e.mode != ReadMode || mode == ReadMode else answer.Some?
  }

  /** The operation succeeds in touching its file, told from the operation, what server and disk
      answered, and the cache before it. */
  ghost predicate IsTouch(entries: map<string, CacheEntry>, op: Operation) {
    var cached := op.name in entries;
    match op
    case Create(_, answer) => answer.Some? && HasRoom(entries)
    case Open(_, mode, auth, answer) =>
      if cached then !entries[op.name].dirty && auth.Some? && IsOpened(entries[op.name], mode, auth.value, answer)
      else answer.Some? && HasRoom(entries)
    case Read(_, ok, _) => cached && ok
    case Write(_, ok, _) => cached && ok && entries[op.name].mode != ReadMode
    case Append(_, ok, _) => cached && ok && entries[op.name].mode != ReadMode
    case Commit(_, _) => false
    case Close(_, answer) => cached && answer.Some?
    case Delete(_, _, _) => false
  }

  /** The names in the order in which the operations touched them. */
  ghost function Touches(ops: seq<Operation>): seq<string> {
    if ops == [] then []
    else
      var front, op := ops[..|ops| - 1], ops[|ops| - 1];
      if IsTouch(Run(front).entries, op) then Touches(front) + [op.name] else Touches(front)
  }

  /** The time of the last touch, -1 for a name never touched. */
  function LastTouch(touches: seq<string>, name: string): int {
    if touches == [] then -1
    else if touches[|touches| - 1] == name then |touches| - 1
    else LastTouch(touches[..|touches| - 1], name)
  }

  ghost predicate ByLastTouch(lru: seq<string>, touches: seq<string>) {
    && (forall i {:trigger LastTouch(touches, lru[i])} :: 0 <= i < |lru| ==> 0 <= LastTouch(touches, lru[i]))
    && forall i, j {:trigger LastTouch(touches, lru[i]), LastTouch(touches, lru[j])} ::
         0 <= i < j < |lru| ==> LastTouch(touches, lru[i]) < LastTouch(touches, lru[j])
  }

  ghost predicate Inv(c: Cache, touches: seq<string>) {
    && NoRepeats(c.lru) && ByLastTouch(c.lru, touches)
    && (forall name :: name in c.entries ==> name in c.lru)
    && |c.entries| <= MAX_CACHE_ENTRIES
  }

  lemma {:induction false} LastTouchBelow(touches: seq<string>, name: string)
    ensures LastTouch(touches, name) < |touches|
  {
    if touches == [] {
    } else {
      LastTouchBelow(touches[..|touches| - 1], name);
    }
  }

  lemma LastTouchSnoc(touches: seq<string>, x: string, name: string)
    ensures LastTouch(touches + [x], name) == if x == name then |touches| else LastTouch(touches, name)
  {
  }

  lemma WithoutKeeps(lru: seq<string>, i: nat, touches: seq<string>)
    requires i < |lru| && NoRepeats(lru) && ByLastTouch(lru, touches)
    ensures NoRepeats(Without(lru, i)) && ByLastTouch(Without(lru, i), touches)
    ensures forall name :: name in Without(lru, i) <==> name in lru && name != lru[i]
  {
  }

  lemma DroppedKeeps(lru: seq<string>, name: string, touches: seq<string>)
    requires NoRepeats(lru) && ByLastTouch(lru, touches)
    ensures NoRepeats(Dropped(lru, name)) && ByLastTouch(Dropped(lru, name), touches)
    ensures forall n :: n in Dropped(lru, name) <==> n in lru && n != name
  {
    var i := Find(lru, name, 0);
    if i.Some? { WithoutKeeps(lru, i.value, touches); }
  }

  lemma TouchedKeeps(lru: seq<string>, name: string, touches: seq<string>)
    requires NoRepeats(lru) && ByLastTouch(lru, touches)
    ensures NoRepeats(Touched(lru, name)) && ByLastTouch(Touched(lru, name), touches + [name])
    ensures forall n :: n in Touched(lru, name) <==> n in lru || n == name
  {
    DroppedKeeps(lru, name, touches);
    var d, t := Dropped(lru, name), Touched(lru, name);
    assert name !in d;
    forall n ensures n in t <==> n in lru || n == name {
      assert n in t <==> n in d || n == name;
    }
    forall i | 0 <= i < |t|
      ensures LastTouch(touches + [name], t[i]) == if i == |d| then |touches| else LastTouch(touches, d[i])
    {
      LastTouchSnoc(touches, name, t[i]);
      if i < |d| { assert d[i] in d; LastTouchBelow(touches, d[i]); }
    }
    forall i | 0 <= i < |d| ensures LastTouch(touches, d[i]) < |touches| {
      LastTouchBelow(touches, d[i]);
    }
  }

  lemma WithoutKey(entries: map<string, CacheEntry>, name: string)
    ensures |entries - {name}| == |entries| - if name in entries then 1 else 0
  {
  }

  /** Below the limit nothing is evicted, and room can be made exactly when there is room. */
  lemma RoomIff(c: Cache, touches: seq<string>)
    requires Inv(c, touches)
    ensures MakeRoom(c).Some? <==> HasRoom(c.entries)
    ensures |c.entries| < 20 ==> MakeRoom(c) == Some(c)
  {
    if name :| name in c.entries && Evictable(c.entries, name) { assert name in c.lru; }
  }

  /** A file that is open, dirty or has a descriptor is not evicted. */
  lemma RoomSpares(c: Cache, name: string)
    requires MakeRoom(c).Some? && name in c.entries
    requires !c.entries[name].closed || c.entries[name].dirty || c.entries[name].fd != 0
    ensures name in MakeRoom(c).value.entries && MakeRoom(c).value.entries[name] == c.entries[name]
  {
  }

  lemma FlagIsTouch(c: Cache, touches: seq<string>, op: Operation)
    requires Inv(c, touches)
    ensures Step(c, op).1 <==> IsTouch(c.entries, op)
  {
    RoomIff(c, touches);
  }

  lemma MakeRoomKeeps(c: Cache, touches: seq<string>)
    requires Inv(c, touches) && MakeRoom(c).Some?
    ensures Inv(MakeRoom(c).value, touches) && |MakeRoom(c).value.entries| < MAX_CACHE_ENTRIES
  {
    if |c.entries| >= MAX_CACHE_ENTRIES {
      var i := FindVictim(c, 0).value;
      WithoutKeeps(c.lru, i, touches);
      WithoutKey(c.entries, c.lru[i]);
    }
  }

  lemma StoreKeeps(c: Cache, touches: seq<string>, name: string, e: CacheEntry)
    requires Inv(c, touches) && (name in c.entries || |c.entries| < MAX_CACHE_ENTRIES)
    ensures Inv(Store(c, name, e), touches + [name])
  {
    TouchedKeeps(c.lru, name, touches);
    var c' := Store(c, name, e);
    assert c'.entries.Keys == c.entries.Keys + {name};
    assert |c'.entries| == |c'.entries.Keys| && |c.entries| == |c.entries.Keys|;
  }

  lemma CreateKeeps(c: Cache, touches: seq<string>, op: Operation)
    requires Inv(c, touches) && op.Create?
    ensures KeepsInv(c, touches, op)
  {
    FlagIsTouch(c, touches, op);
    if MakeRoom(c).Some? {
      MakeRoomKeeps(c, touches);
      if op.answer.Some? {
        StoreKeeps(MakeRoom(c).value, touches, op.name, Step(c, op).0.entries[op.name]);
      }
    }
  }

  lemma OpenKeeps(c: Cache, touches: seq<string>, op: Operation)
    requires Inv(c, touches) && op.Open?
    ensures KeepsInv(c, touches, op)
  {
    FlagIsTouch(c, touches, op);
    var (c', touched) := Step(c, op);
    if op.name in c.entries {
      if touched { StoreKeeps(c, touches, op.name, c'.entries[op.name]); }
    } else if MakeRoom(c).Some? {
      MakeRoomKeeps(c, touches);
      if touched { StoreKeeps(MakeRoom(c).value, touches, op.name, c'.entries[op.name]); }
    }
  }

  lemma CommitKeeps(c: Cache, touches: seq<string>, op: Operation)
    requires Inv(c, touches) && op.Commit?
    ensures KeepsInv(c, touches, op)
  {
    FlagIsTouch(c, touches, op);
  }

  lemma ForgetKeeps(c: Cache, touches: seq<string>, name: string)
    requires Inv(c, touches)
    ensures Inv(Forget(c, name), touches) && name !in Forget(c, name).entries
  {
  }

  lemma UnlistKeeps(c: Cache, touches: seq<string>, name: string)
    requires Inv(c, touches) && name !in c.entries
    ensures Inv(Unlist(c, name), touches)
  {
    DroppedKeeps(c.lru, name, touches);
  }

  lemma ForgetAndUnlistKeeps(c: Cache, touches: seq<string>, name: string)
    requires Inv(c, touches)
    ensures Inv(Unlist(Forget(c, name), name), touches)
  {
    ForgetKeeps(c, touches, name);
    UnlistKeeps(Forget(c, name), touches, name);
  }

  lemma DeleteShape(c: Cache, name: string, removed: bool, ok: bool)
    ensures var c' := Step(c, Delete(name, removed, ok)).0;
            c' == c || c' == Forget(c, name) || c' == Unlist(Forget(c, name), name)
  {
  }

  lemma DeleteKeeps(c: Cache, touches: seq<string>, name: string, removed: bool, ok: bool)
    requires Inv(c, touches)
    ensures Inv(Step(c, Delete(name, removed, ok)).0, touches)
  {
    var c' := Step(c, Delete(name, removed, ok)).0;
    DeleteShape(c, name, removed, ok);
    if c' == Forget(c, name) {
      ForgetKeeps(c, touches, name);
    } else if c' != c {
      ForgetAndUnlistKeeps(c, touches, name);
    }
  }

  ghost predicate KeepsInv(c: Cache, touches: seq<string>, op: Operation) {
    Inv(Step(c, op).0, if IsTouch(c.entries, op) then touches + [op.name] else touches)
  }

  lemma StepKeepsInv(c: Cache, touches: seq<string>, op: Operation)
    requires Inv(c, touches)
    ensures KeepsInv(c, touches, op)
  {
    FlagIsTouch(c, touches, op);
    match op
    case Create(_, _) => CreateKeeps(c, touches, op);
    case Open(_, _, _, _) => OpenKeeps(c, touches, op);
    case Read(name, _, _) =>
      if Step(c, op).1 { StoreKeeps(c, touches, name, Step(c, op).0.entries[name]); }
    case Write(name, _, _) =>
      if Step(c, op).1 { StoreKeeps(c, touches, name, Step(c, op).0.entries[name]); }
    case Append(name, _, _) =>
      if Step(c, op).1 { StoreKeeps(c, touches, name, Step(c, op).0.entries[name]); }
    case Commit(_, _) => CommitKeeps(c, touches, op);
    case Close(name, _) =>
      if Step(c, op).1 { StoreKeeps(c, touches, name, Step(c, op).0.entries[name]); }
    case Delete(name, removed, ok) => DeleteKeeps(c, touches, name, removed, ok);
  }

  lemma {:induction false} RunKeepsInv(ops: seq<Operation>)
    ensures Inv(Run(ops), Touches(ops))
  {
    if ops == [] {
    } else {
      var front, op := ops[..|ops| - 1], ops[|ops| - 1];
      RunKeepsInv(front);
      StepKeepsInv(Run(front), Touches(front), op);
    }
  }

  // ---------- what holds of every run ----------

  /** The list has no repeats, covers the cache and is ordered by last touch; the cache is bounded. */
  lemma EveryRunIsOrdered(ops: seq<Operation>)
    ensures var c := Run(ops);
            && NoRepeats(c.lru) && ByLastTouch(c.lru, Touches(ops))
            && (forall name :: name in c.entries ==> name in c.lru)
            && |c.entries| <= MAX_CACHE_ENTRIES
  {
    RunKeepsInv(ops);
  }

  /** The list after a touch: the one before, or after making room for a new file, with the name
      moved to its end. */
  lemma TouchedList(c: Cache, op: Operation)
    requires Step(c, op).1
    ensures var room := if op.Create? || op.name !in c.entries then MakeRoom(c) else Some(c);
            room.Some? && Step(c, op).0.lru == Touched(room.value.lru, op.name)
  {
    match op
    case Create(_, _) =>
    case Open(_, _, _, _) =>
    case Read(_, _, _) =>
    case Write(_, _, _) =>
    case Append(_, _, _) =>
    case Close(_, _) =>
  }

  /** In every run an operation answers that it touched its file exactly when it did, and then the
      file is the last of the list; a file that was cached has only moved there. */
  lemma TouchedIsLast(ops: seq<Operation>, op: Operation)
    ensures var c, (c', touched) := Run(ops), Step(Run(ops), op);
            && (touched <==> IsTouch(c.entries, op))
            && (touched ==> c'.lru != [] && c'.lru[|c'.lru| - 1] == op.name)
            && (touched && !op.Create? && op.name in c.entries ==> c'.lru == Dropped(c.lru, op.name) + [op.name])
  {
    RunKeepsInv(ops);
    FlagIsTouch(Run(ops), Touches(ops), op);
    if Step(Run(ops), op).1 { TouchedList(Run(ops), op); }
  }

  /** victim may go, and of all files that may go it was touched longest ago. */
  ghost predicate IsVictim(c: Cache, touches: seq<string>, victim: string) {
    && Evictable(c.entries, victim)
    && forall name :: Evictable(c.entries, name) && name != victim ==>
                        LastTouch(touches, victim) < LastTouch(touches, name)
  }

  lemma FirstIsVictim(c: Cache, touches: seq<string>)
    requires Inv(c, touches) && FindVictim(c, 0).Some?
    ensures IsVictim(c, touches, c.lru[FindVictim(c, 0).value])
  {
  }

  lemma EvictionShape(c: Cache, i: nat)
    requires NoRepeats(c.lru) && i < |c.lru| && FindVictim(c, 0) == Some(i)
    ensures Evicted(c) == Some(Unlist(Forget(c, c.lru[i]), c.lru[i]))
  {
    assert Find(c.lru, c.lru[i], 0) == Some(i);
  }

  /** After any run, eviction fails exactly when no cached file may go, and otherwise removes
      the one of them that was touched longest ago, from cache and list, and nothing else. */
  lemma EvictsLeastRecentlyTouched(ops: seq<Operation>)
    ensures var c := Run(ops);
            && (Evicted(c).None? <==> forall name :: !Evictable(c.entries, name))
            && (Evicted(c).Some? ==>
                  exists victim :: IsVictim(c, Touches(ops), victim)
                                   && Evicted(c).value == Unlist(Forget(c, victim), victim))
  {
    RunKeepsInv(ops);
    var c := Run(ops);
    if FindVictim(c, 0).None? {
      forall name ensures !Evictable(c.entries, name) {
        if name in c.entries { assert name in c.lru; }
      }
    } else {
      FirstIsVictim(c, Touches(ops));
      EvictionShape(c, FindVictim(c, 0).value);
    }
  }

  // ---------- what an answer leaves in the cache ----------

  /** The entry after a Create, or an Open of a file that is not cached or has changed. */
  lemma GrantedEntry(ops: seq<Operation>, op: Operation)
    requires var entries := Run(ops).entries;
             && IsTouch(entries, op)
             && (op.Create? || (op.Open? && (op.name in entries ==> op.auth != Some(entries[op.name].version))))
    ensures var c' := Step(Run(ops), op).0;
            && op.answer.Some? && op.name in c'.entries
            && c'.entries[op.name] == CacheEntry(version := op.answer.value.version, fd := op.answer.value.fd,
                                                 closed := op.Create?, mode := if op.Create? then ReadMode else op.mode,
                                                 dirty := false, valid := false, text := "")
  {
    RunKeepsInv(ops);
    FlagIsTouch(Run(ops), Touches(ops), op);
  }

  /** The entry after an Open of a cached file that has not changed: text and version stay. */
  lemma ReopenedEntry(ops: seq<Operation>, op: Operation)
    requires var entries := Run(ops).entries;
             && op.Open? && IsTouch(entries, op) && op.name in entries && op.auth == Some(entries[op.name].version)
    ensures var e, c' := Run(ops).entries[op.name], Step(Run(ops), op).0;
            && op.name in c'.entries
            && c'.entries[op.name]
               == e.(valid := true, mode := op.mode,
                     fd := if op.answer.Some? then op.answer.value.fd else e.fd,
                     closed := if op.answer.Some? then false else e.closed)
  {
  }

  /** A Commit or Close that the server accepts leaves the file clean with the answered version;
      a closed file has no descriptor. The text stays. */
  lemma SettledEntry(c: Cache, op: Operation)
    requires op.name in c.entries && (op.Close? || op.Commit?) && op.newVersion.Some?
    requires op.Commit? ==> c.entries[op.name].dirty && !c.entries[op.name].closed
    ensures var e, c' := c.entries[op.name], Step(c, op).0;
            && op.name in c'.entries
            && c'.entries[op.name] == e.(version := op.newVersion.value, dirty := false,
                                         closed := op.Close?, fd := if op.Close? then 0 else e.fd)
  {
  }

  lemma DeletedFrom(c: Cache, touches: seq<string>, name: string, removed: bool, ok: bool)
    requires NoRepeats(c.lru) && ByLastTouch(c.lru, touches)
    ensures var c' := Step(c, Delete(name, removed, ok)).0;
            if name in c.entries && (c.entries[name].dirty || !removed) then c' == c
            else
              && name !in c'.entries && c'.entries == c.entries - {name}
              && (ok ==> name !in c'.lru && forall n :: n != name ==> (n in c'.lru <==> n in c.lru))
              && (!ok ==> c'.lru == c.lru)
  {
    DroppedKeeps(c.lru, name, touches);
  }

  /** A Delete is refused for a dirty file or when the local copy stays. Otherwise the entry is
      gone, and the name leaves the list once the server accepts; nothing else changes. */
  lemma DeleteResult(ops: seq<Operation>, name: string, removed: bool, ok: bool)
    ensures var c, c' := Run(ops), Step(Run(ops), Delete(name, removed, ok)).0;
            if name in c.entries && (c.entries[name].dirty || !removed) then c' == c
            else
              && name !in c'.entries && c'.entries == c.entries - {name}
              && (ok ==> name !in c'.lru && forall n :: n != name ==> (n in c'.lru <==> n in c.lru))
              && (!ok ==> c'.lru == c.lru)
  {
    RunKeepsInv(ops);
    DeletedFrom(Run(ops), Touches(ops), name, removed, ok);
  }

  // ---------- uncommitted text ----------

  ghost predicate HasUncommitted(c: Cache, name: string) {
    name in c.entries && c.entries[name].dirty
  }

  ghost predicate EntryOk(e: CacheEntry) {
    e.dirty ==> e.mode != ReadMode && !e.valid
  }

  /** A file with uncommitted text is not open for reading and is never read locally. */
  ghost predicate DirtyOk(c: Cache) {
    forall name :: name in c.entries ==> EntryOk(c.entries[name])
  }

  lemma StoreDirtyOk(c: Cache, name: string, e: CacheEntry)
    requires DirtyOk(c) && EntryOk(e)
    ensures DirtyOk(Store(c, name, e))
  {
  }

  lemma MakeRoomDirtyOk(c: Cache)
    requires DirtyOk(c)
    ensures MakeRoom(c).Some? ==> DirtyOk(MakeRoom(c).value)
  {
  }

  lemma OpenDirtyOk(c: Cache, op: Operation)
    requires DirtyOk(c) && (op.Open? || op.Create?)
    ensures DirtyOk(Step(c, op).0)
  {
    MakeRoomDirtyOk(c);
    if Step(c, op).1 {
      var room := if op.Open? && op.name in c.entries then c else MakeRoom(c).value;
      StoreDirtyOk(room, op.name, Step(c, op).0.entries[op.name]);
    }
  }

  lemma StepDirtyOk(c: Cache, op: Operation)
    requires DirtyOk(c)
    ensures DirtyOk(Step(c, op).0)
  {
    match op
    case Create(_, _) => OpenDirtyOk(c, op);
    case Open(_, _, _, _) => OpenDirtyOk(c, op);
    case Read(_, _, _) =>
    case Write(_, _, _) =>
    case Append(_, _, _) =>
    case Commit(_, _) =>
    case Close(_, _) =>
    case Delete(_, _, _) =>
  }

  lemma {:induction false} RunDirtyOk(c: Cache, ops: seq<Operation>)
    requires DirtyOk(c)
    ensures DirtyOk(RunFrom(c, ops))
  {
    if ops == [] {
    } else {
      RunDirtyOk(c, ops[..|ops| - 1]);
      StepDirtyOk(RunFrom(c, ops[..|ops| - 1]), ops[|ops| - 1]);
    }
  }

  /** In every run a file with uncommitted text is not valid and not open for reading. */
  lemma DirtyIsNeverValid(ops: seq<Operation>, name: string)
    requires HasUncommitted(Run(ops), name)
    ensures !Run(ops).entries[name].valid && Run(ops).entries[name].mode != ReadMode
  {
    RunDirtyOk(Cache(map[], []), ops);
  }

  /** The operation commits or closes the file at the server, or creates it anew. */
  ghost predicate Settles(c: Cache, op: Operation, name: string) {
    && op.name == name
    && match op
       case Commit(_, v) => name in c.entries && !c.entries[name].closed && v.Some?
       case Close(_, v) => v.Some?
       case Create(_, answer) => MakeRoom(c).Some? && answer.Some?
       case _ => false
  }

  /** What an operation does to the text of a file with uncommitted text. */
  datatype Edit = Keep | Put(text: string) | Extend(text: string) | Fetch(text: string)

  function EditOf(op: Operation, name: string): Edit {
    if op.name != name then Keep
    else
      match op
      case Read(_, ok, fetched) => if ok then Fetch(fetched) else Keep
      case Write(_, ok, data) => if ok then Put(data) else Keep
      case Append(_, ok, data) => if ok then Extend(data) else Keep
      case _ => Keep
  }

  function Edited(text: string, edit: Edit): string {
    match edit
    case Keep => text
    case Put(t) => t
    case Extend(t) => text + t
    case Fetch(t) => t
  }

  lemma RoomKeepsUncommitted(c: Cache, name: string)
    requires HasUncommitted(c, name)
    ensures MakeRoom(c).Some? ==> name in MakeRoom(c).value.entries
                                  && MakeRoom(c).value.entries[name] == c.entries[name]
  {
  }

  /** A file keeps its uncommitted state through an operation on any file, evictions included,
      exactly when the operation does not settle it; then its text is edited. */
  lemma UncommittedStep(c: Cache, op: Operation, name: string)
    requires DirtyOk(c) && HasUncommitted(c, name)
    ensures HasUncommitted(Step(c, op).0, name) <==> !Settles(c, op, name)
    ensures !Settles(c, op, name) ==>
              Step(c, op).0.entries[name].text == Edited(c.entries[name].text, EditOf(op, name))
  {
    match op
    case Create(_, _) => RoomKeepsUncommitted(c, name);
    case Open(_, _, _, _) => RoomKeepsUncommitted(c, name);
    case Read(_, _, _) =>
    case Write(_, _, _) =>
    case Append(_, _, _) =>
    case Commit(_, _) =>
    case Close(_, _) =>
    case Delete(_, _, _) =>
  }

  /** After any run: uncommitted text survives an operation unchanged exactly when the operation
      neither settles the file nor replaces the text by another. */
  lemma UncommittedSurvivesIff(ops: seq<Operation>, op: Operation, name: string)
    requires HasUncommitted(Run(ops), name)
    ensures var c, c' := Run(ops), Step(Run(ops), op).0;
            var text := c.entries[name].text;
            HasUncommitted(c', name) && c'.entries[name].text == text
            <==> !Settles(c, op, name) && Edited(text, EditOf(op, name)) == text
  {
    RunDirtyOk(Cache(map[], []), ops);
    UncommittedStep(Run(ops), op, name);
  }

  function Edits(ops: seq<Operation>, name: string): (edits: seq<Edit>)
    ensures |edits| == |ops|
  {
    if ops == [] then [] else Edits(ops[..|ops| - 1], name) + [EditOf(ops[|ops| - 1], name)]
  }

  function EditedAll(text: string, edits: seq<Edit>): string {
    if edits == [] then text
    else Edited(EditedAll(text, edits[..|edits| - 1]), edits[|edits| - 1])
  }

  /** The text as the user wrote it: a Read is not meant to change it. */
  function Meant(text: string, edits: seq<Edit>): string {
    if edits == [] then text
    else
      var front := Meant(text, edits[..|edits| - 1]);
      if edits[|edits| - 1].Fetch? then front else Edited(front, edits[|edits| - 1])
  }

  /** No operation of the run settles the file. */
  ghost predicate NeverSettled(c: Cache, ops: seq<Operation>, name: string) {
    forall i :: 0 <= i < |ops| ==> !Settles(RunFrom(c, ops[..i]), ops[i], name)
  }

  lemma NeverSettledFront(c: Cache, ops: seq<Operation>, name: string)
    requires ops != [] && NeverSettled(c, ops, name)
    ensures NeverSettled(c, ops[..|ops| - 1], name) && !Settles(RunFrom(c, ops[..|ops| - 1]), ops[|ops| - 1], name)
  {
    var front := ops[..|ops| - 1];
    forall i | 0 <= i < |front| ensures !Settles(RunFrom(c, front[..i]), front[i], name) {
      assert front[..i] == ops[..i];
    }
  }

  lemma {:induction false} UncommittedRun(c: Cache, ops: seq<Operation>, name: string)
    requires DirtyOk(c) && HasUncommitted(c, name) && NeverSettled(c, ops, name)
    ensures HasUncommitted(RunFrom(c, ops), name)
    ensures RunFrom(c, ops).entries[name].text == EditedAll(c.entries[name].text, Edits(ops, name))
  {
    if ops == [] {
    } else {
      var n := |ops| - 1;
      NeverSettledFront(c, ops, name);
      UncommittedRun(c, ops[..n], name);
      RunDirtyOk(c, ops[..n]);
      UncommittedStep(RunFrom(c, ops[..n]), ops[n], name);
      assert Edits(ops, name)[..n] == Edits(ops[..n], name);
    }
  }

  /** Edit j fetches, and nothing after it replaces the text. */
  ghost predicate IsLastFetch(edits: seq<Edit>, j: int) {
    && 0 <= j < |edits| && edits[j].Fetch?
    && forall k :: j < k < |edits| ==> !edits[k].Put? && !edits[k].Fetch?
  }

  ghost predicate FetchesMeant(text: string, edits: seq<Edit>) {
    forall j :: IsLastFetch(edits, j) ==> edits[j].text == Meant(text, edits[..j])
  }

  lemma SameEnding(a: string, b: string, t: string)
    ensures a + t == b + t <==> a == b
  {
    if a + t == b + t {
      assert a == (a + t)[..|a|] == (b + t)[..|b|] == b;
    }
  }

  /** An edit that neither replaces nor fetches leaves the last fetch where it was. */
  lemma FetchesMeantFront(text: string, edits: seq<Edit>)
    requires edits != [] && (edits[|edits| - 1].Keep? || edits[|edits| - 1].Extend?)
    ensures FetchesMeant(text, edits) <==> FetchesMeant(text, edits[..|edits| - 1])
  {
    var front := edits[..|edits| - 1];
    forall j | 0 <= j < |front|
      ensures IsLastFetch(edits, j) <==> IsLastFetch(front, j)
      ensures front[j] == edits[j] && front[..j] == edits[..j]
    {
    }
    if FetchesMeant(text, edits) {
      forall j | IsLastFetch(front, j) ensures front[j].text == Meant(text, front[..j]) {
        assert IsLastFetch(edits, j) && front[..j] == edits[..j];
      }
    }
    if FetchesMeant(text, front) {
      forall j | IsLastFetch(edits, j) ensures edits[j].text == Meant(text, edits[..j]) {
        assert IsLastFetch(front, j) && front[..j] == edits[..j];
      }
    }
  }

  /** The text is what the user meant exactly when a Read that no later write replaced fetched
      that very text. */
  lemma {:induction false} MeantIff(text: string, edits: seq<Edit>)
    ensures EditedAll(text, edits) == Meant(text, edits) <==> FetchesMeant(text, edits)
  {
    if edits == [] {
    } else {
      var n := |edits| - 1;
      match edits[n]
      case Put(_) =>
      case Fetch(_) => assert IsLastFetch(edits, n);
      case Keep =>
        MeantIff(text, edits[..n]);
        FetchesMeantFront(text, edits);
      case Extend(t) =>
        MeantIff(text, edits[..n]);
        FetchesMeantFront(text, edits);
        SameEnding(EditedAll(text, edits[..n]), Meant(text, edits[..n]), t);
    }
  }

  /** After any run in which a file got uncommitted text, and any further operations that do not
      settle it, a Close, or a Commit of an open file, sends what the user wrote exactly when every
      Read since then, unless a later WriteFile or Read replaced its text, fetched what the user had
      written by then. */
  lemma SendsWrittenIff(before: seq<Operation>, ops: seq<Operation>, name: string, op: Operation)
    requires HasUncommitted(Run(before), name) && NeverSettled(Run(before), ops, name)
    requires op.name == name && (op.Close? || op.Commit?)
    ensures var c, text, edits := RunFrom(Run(before), ops), Run(before).entries[name].text, Edits(ops, name);
            && name in c.entries
            && (op.Commit? && c.entries[name].closed ==> Sent(c, op) == None)
            && (op.Close? || !c.entries[name].closed ==>
                  (Sent(c, op) == Some(Meant(text, edits)) <==> FetchesMeant(text, edits)))
  {
    RunDirtyOk(Cache(map[], []), before);
    UncommittedRun(Run(before), ops, name);
    MeantIff(Run(before).entries[name].text, Edits(ops, name));
  }

  /** A clean file is never sent. */
  lemma CleanIsNotSent(c: Cache, op: Operation)
    requires !HasUncommitted(c, op.name)
    ensures Sent(c, op) == None
  {
  }

  /** Opening for writing, writing and reading back: the Read takes the server's text, and that
      is what the Close sends; the written text is lost. */
  lemma ReadDiscardsWrite(name: string, written: string, fetched: string, answer: Option<int32>)
    ensures var ops := [Open(name, WriteMode, None, Some(Opened(1, 4))), Write(name, true, written)];
            var c := Run(ops);
            var c' := Step(c, Read(name, true, fetched)).0;
            && Sent(c, Close(name, answer)) == Some(written)
            && Got(c, Read(name, true, fetched)) == Some(fetched)
            && Sent(c', Close(name, answer)) == Some(fetched)
  {
    var open, write := Open(name, WriteMode, None, Some(Opened(1, 4))), Write(name, true, written);
    RunSnoc([], open);
    RunSnoc([open], write);
    assert [] + [open] == [open] && [open] + [write] == [open, write];
    var e := Fresh(Opened(1, 4), false, WriteMode);
    assert Run([open]).entries == map[name := e];
    assert Run([open, write]).entries == map[name := Written(e, written)];
  }

  // ---------- what a Read returns ----------

  /** What an operation does to the local copy of a file. */
  function LocalEdit(c: Cache, op: Operation, name: string): Edit {
    if op.name != name || !Step(c, op).1 then Keep
    else
      match op
      case Create(_, _) => Put("")
      case Open(_, _, auth, _) => if name in c.entries && auth == Some(c.entries[name].version) then Keep else Put("")
      case Read(_, _, fetched) => if c.entries[name].valid then Keep else Fetch(fetched)
      case Write(_, _, data) => Put(data)
      case Append(_, _, data) => Extend(data)
      case _ => Keep
  }

  ghost predicate LocalStepOk(c: Cache, op: Operation, name: string) {
    var c' := Step(c, op).0;
    name in c'.entries ==>
      if name in c.entries then c'.entries[name].text == Edited(c.entries[name].text, LocalEdit(c, op, name))
      else LocalEdit(c, op, name) == Put("") && c'.entries[name].text == ""
  }

  lemma RoomKeepsEntry(c: Cache, name: string)
    ensures MakeRoom(c).Some? && name in MakeRoom(c).value.entries ==>
              name in c.entries && MakeRoom(c).value.entries[name] == c.entries[name]
  {
  }

  lemma CreateLocal(c: Cache, op: Operation, name: string)
    requires op.Create?
    ensures LocalStepOk(c, op, name)
  {
    RoomKeepsEntry(c, name);
  }

  lemma OpenLocal(c: Cache, op: Operation, name: string)
    requires op.Open?
    ensures LocalStepOk(c, op, name)
  {
    RoomKeepsEntry(c, name);
  }

  lemma LocalStep(c: Cache, op: Operation, name: string)
    ensures LocalStepOk(c, op, name)
  {
    match op
    case Create(_, _) => CreateLocal(c, op, name);
    case Open(_, _, _, _) => OpenLocal(c, op, name);
    case Read(_, _, _) =>
    case Write(_, _, _) =>
    case Append(_, _, _) =>
    case Commit(_, _) =>
    case Close(_, _) =>
    case Delete(_, _, _) =>
  }

  /** A Read of the file has fetched its text since the local copy was last truncated. */
  predicate HasFetched(ops: seq<Operation>, name: string) {
    if ops == [] then false
    else
      var edit := LocalEdit(Run(ops[..|ops| - 1]), ops[|ops| - 1], name);
      if edit.Keep? then HasFetched(ops[..|ops| - 1], name) else edit.Fetch?
  }

  /** The user only opens, reads and closes the file, whose text at the server is t. */
  ghost predicate OnlyReads(ops: seq<Operation>, name: string, t: string) {
    forall i :: 0 <= i < |ops| && ops[i].name == name ==>
                  !ops[i].Write? && !ops[i].Append? && (ops[i].Read? ==> ops[i].fetched == t)
  }

  lemma {:induction false} ReadOnlyText(ops: seq<Operation>, name: string, t: string)
    requires OnlyReads(ops, name, t)
    ensures name in Run(ops).entries ==> Run(ops).entries[name].text == if HasFetched(ops, name) then t else ""
  {
    if ops == [] {
    } else {
      var front, op := ops[..|ops| - 1], ops[|ops| - 1];
      ReadOnlyText(front, name, t);
      LocalStep(Run(front), op, name);
    }
  }

  /** A Read returns the text at the server exactly when the entry is not valid, or a Read has
      fetched it since the local copy was truncated, or there is nothing to read. */
  lemma ReadsServerTextIff(ops: seq<Operation>, name: string, t: string)
    requires OnlyReads(ops, name, t) && name in Run(ops).entries
    ensures Got(Run(ops), Read(name, true, t)) == Some(t)
            <==> !Run(ops).entries[name].valid || HasFetched(ops, name) || t == ""
  {
    ReadOnlyText(ops, name, t);
  }

  /** Open, Close and Open of an unchanged file: the second Open finds the versions equal and
      trusts the local copy that the first one truncated. */
  lemma SecondOpenReadsNothing(name: string, t: string)
    ensures var ops := [Open(name, ReadMode, None, Some(Opened(1, 4))), Close(name, Some(1)),
                        Open(name, ReadMode, Some(1), Some(Opened(1, 5)))];
            Got(Run(ops), Read(name, true, t)) == Some("")
  {
    var open, close := Open(name, ReadMode, None, Some(Opened(1, 4))), Close(name, Some(1));
    var again := Open(name, ReadMode, Some(1), Some(Opened(1, 5)));
    RunSnoc([], open);
    RunSnoc([open], close);
    RunSnoc([open, close], again);
    assert [] + [open] == [open] && [open] + [close] == [open, close];
    assert [open, close] + [again] == [open, close, again];
    var e := Fresh(Opened(1, 4), false, ReadMode);
    assert Run([open]).entries == map[name := e];
    assert Run([open, close]).entries == map[name := e.(closed := true, fd := 0)];
    assert Run([open, close, again]).entries == map[name := e.(valid := true, fd := 5)];
  }
}
