/** The stat cache with a time to live, built on the hash map.

    `Cache` is the value of the cache and the functions on it are its operations; the lemmas are
    about runs of them.  The class `FsCache` keeps the entries on a heap of its own, reached through
    a `HashMap` of pointers, and is proved against those functions. */
module FsCaches {
  import opened HashMaps
  import opened Options
  import opened Powers


  type Path = string
  type Stat = nat

  datatype Kind = Plain | Link

  const LSTAT_FLAG: nat := 0x8000_0000_0000_0000
  const MAX_ENTRIES: nat := 100000
  const INITIAL_CAP: nat := 256
  const PATH_MAX: nat := 4096

  // ----- Keys ---------------------------------------------------------------------------------

  const FNV_OFFSET: nat := 14695981039346656037
  const FNV_PRIME: nat := 1099511628211

  function FnvStep(h: Key, c: char): Key {
    Bitwise((x, y) => x != y, h, c as int % 256, 64) * FNV_PRIME % TWO64
  }

  function Fnv(path: Path): Key {
    if path == [] then FNV_OFFSET else FnvStep(Fnv(path[..|path| - 1]), path[|path| - 1])
  }

  function PathHash(path: Path): (h: Key)
    ensures h < LSTAT_FLAG
  { Fnv(path) % LSTAT_FLAG }

  function KeyOf(path: Path, kind: Kind): Key {
    if kind == Plain then PathHash(path) else PathHash(path) + LSTAT_FLAG
  }

  function KindOf(key: Key): Kind { if key < LSTAT_FLAG then Plain else Link }

  /** `fnv1a_path`. */
  method HashPath(path: Path) returns (h: Key)
    ensures h == PathHash(path)
  {
    h := FNV_OFFSET;
    for i := 0 to |path|
      invariant h == Fnv(path[..i])
    {
      assert path[..i + 1][..i] == path[..i];
      h := FnvStep(h, path[i]);
    }
    assert path[..|path|] == path;
    h := h % LSTAT_FLAG;
  }

  // ----- The cache as a value -----------------------------------------------------------------

  datatype Entry = Entry(path: Path, st: Stat, at: int)

  datatype Cache = Cache(ttl: int, entries: map<Key, Entry>)

  /** `cache_lookup`: an entry of another path, or too old an entry, is a miss. */
  function Lookup(c: Cache, path: Path, kind: Kind, now: int): Option<Stat> {
    var k := KeyOf(path, kind);
    if k in c.entries && c.entries[k].path == path && now - c.entries[k].at < c.ttl
    then Some(c.entries[k].st) else None
  }

  /** `cache_store`: a colliding entry is replaced, but a full cache takes no new key. */
  function Store(c: Cache, path: Path, kind: Kind, st: Stat, now: int): Cache {
    var k := KeyOf(path, kind);
    if c.ttl <= 0 || (k !in c.entries && |c.entries| >= MAX_ENTRIES) then c
    else c.(entries := c.entries[k := Entry(path, st, now)])
  }

  function ForgetKey(c: Cache, path: Path, kind: Kind): Cache {
    var k := KeyOf(path, kind);
    if k in c.entries && c.entries[k].path == path then c.(entries := c.entries - {k}) else c
  }

  /** `invalidate_one`. */
  function Forget(c: Cache, path: Path): Cache { ForgetKey(ForgetKey(c, path, Plain), path, Link) }

  /** `strrchr(path, '/')`, or -1. */
  function LastSlash(path: Path): (i: int)
    ensures -1 <= i < |path|
    ensures i >= 0 ==> path[i] == '/'
    ensures forall j :: i < j < |path| ==> path[j] != '/'
  {
    if path == [] then -1
    else if path[|path| - 1] == '/' then |path| - 1
    else LastSlash(path[..|path| - 1])
  }

  /** The directory that `fscache_invalidate` forgets with a path; a parent of `PATH_MAX` bytes or
      more stays cached. */
  function Parent(path: Path): Option<Path> {
    var i := LastSlash(path);
    if i < 0 then Some(".") else if i == 0 then Some("/")
    else if i < PATH_MAX then Some(path[..i]) else None
  }

  function Invalidate(c: Cache, path: Path): Cache {
    match Parent(path)
    case Some(p) => Forget(Forget(c, path), p)
    case None => Forget(c, path)
  }

  // ----- Runs ---------------------------------------------------------------------------------

  /** What the file system answers to a call for a path at a time; `None` is an error. */
  type World = (Path, Kind, int) -> Option<Stat>

  datatype Cmd =
    | Call(at: int, path: Path, kind: Kind)      // fscache_stat, fscache_lstat
    | Insert(at: int, path: Path, st: Stat)      // fscache_insert
    | Drop(at: int, path: Path)                  // fscache_invalidate
    | DropAll(at: int)                           // fscache_invalidate_all

  /** `fscache_stat` and `fscache_lstat`: the result, and whether it came from the cache. */
  function Answer(c: Cache, cmd: Cmd, actual: Option<Stat>): (Option<Stat>, bool)
    requires cmd.Call?
  {
    if c.ttl > 0 && Lookup(c, cmd.path, cmd.kind, cmd.at).Some? then (Lookup(c, cmd.path, cmd.kind, cmd.at), true)
    else (actual, false)
  }

  function Step(c: Cache, cmd: Cmd, world: World): Cache {
    match cmd
    case Call(at, path, kind) =>
      if c.ttl <= 0 || Lookup(c, path, kind, at).Some? then c
      else (match world(path, kind, at) case None => c case Some(st) => Store(c, path, kind, st, at))
    case Insert(at, path, st) => Store(c, path, Plain, st, at)
    case Drop(_, path) => Invalidate(c, path)
    case DropAll(_) => c.(entries := map[])
  }

  function After(ttl: int, cmds: seq<Cmd>, world: World): Cache {
    if cmds == [] then Cache(ttl, map[]) else Step(After(ttl, cmds[..|cmds| - 1], world), cmds[|cmds| - 1], world)
  }

  /** The clock does not run backwards and inserted results are true. */
  predicate Honest(cmds: seq<Cmd>, world: World) {
    && (forall i, j :: 0 <= i <= j < |cmds| ==> cmds[i].at <= cmds[j].at)
    && (forall i :: 0 <= i < |cmds| && cmds[i].Insert? ==> world(cmds[i].path, Plain, cmds[i].at) == Some(cmds[i].st))
  }

  /** `name` in the directory `dir`. */
  predicate InDir(dir: Path, name: Path, path: Path) { path == dir + "/" + name && '/' !in name }

  /** Dropping `q` forgets `q` and the directory that holds it, if its name is not too long; `/` holds the
      names directly behind the root, `.` the names without a slash. */
  ghost predicate Reaches(q: Path, path: Path) {
    || path == q
    || (0 < |path| < PATH_MAX && exists name :: InDir(path, name, q))
    || (path == "/" && exists name :: InDir("", name, q))
    || (path == "." && '/' !in q)
  }

  ghost predicate Covers(cmd: Cmd, path: Path) { cmd.DropAll? || (cmd.Drop? && Reaches(cmd.path, path)) }

  lemma LastSlashIs(q: Path, dir: Path, name: Path)
    requires InDir(dir, name, q)
    ensures LastSlash(q) == |dir| && q[..|dir|] == dir
  {
    assert q[|dir|] == '/';
    forall j | |dir| < j < |q| ensures q[j] != '/' { assert q[j] == name[j - |dir| - 1]; }
  }

  /** `Parent` is the directory that the path names. */
  lemma ParentHolds(q: Path, path: Path)
    ensures Reaches(q, path) <==> path == q || Parent(q) == Some(path)
  {
    var i := LastSlash(q);
    if i >= 0 {
      assert q == q[..i] + "/" + q[i + 1..];
      assert InDir(q[..i], q[i + 1..], q);
      assert '/' in q;
    } else {
      assert '/' !in q;
    }
    if 0 < |path| < PATH_MAX && exists name :: InDir(path, name, q) {
      var name :| InDir(path, name, q);
      LastSlashIs(q, path, name);
    }
    if path == "/" && exists name :: InDir("", name, q) {
      var name :| InDir("", name, q);
      LastSlashIs(q, "", name);
    }
  }

  /** Command `j` saw `st` as the answer of kind `kind` for `path`, and no later one forgot it. */
  ghost predicate Witness(cmds: seq<Cmd>, world: World, j: int, path: Path, kind: Kind, at: int, st: Stat) {
    && 0 <= j < |cmds| && cmds[j].at == at && world(path, kind, at) == Some(st)
    && (cmds[j] == Call(at, path, kind) || (cmds[j] == Insert(at, path, st) && kind == Plain))
    && forall i :: j < i < |cmds| ==> !Covers(cmds[i], path)
  }

  /** Every entry stands under a key of its own path and was seen. */
  ghost predicate Justified(c: Cache, cmds: seq<Cmd>, world: World) {
    forall k :: k in c.entries ==>
      var e := c.entries[k];
      k == KeyOf(e.path, KindOf(k)) && exists j :: Witness(cmds, world, j, e.path, KindOf(k), e.at, e.st)
  }

  /** `stat` and `lstat` never share a key, whatever the paths. */
  lemma KindsNeverAlias(p: Path, q: Path)
    ensures KeyOf(p, Plain) != KeyOf(q, Link)
  {}

  lemma KindOfKey(path: Path, kind: Kind)
    ensures KindOf(KeyOf(path, kind)) == kind
  {}

  lemma WitnessStays(cmds: seq<Cmd>, world: World, j: int, path: Path, kind: Kind, at: int, st: Stat, cmd: Cmd)
    requires Witness(cmds, world, j, path, kind, at, st) && !Covers(cmd, path)
    ensures Witness(cmds + [cmd], world, j, path, kind, at, st)
  {}

  lemma ForgetIs(c: Cache, path: Path)
    ensures Forget(c, path).ttl == c.ttl
    ensures forall k :: k in Forget(c, path).entries ==> k in c.entries && Forget(c, path).entries[k] == c.entries[k]
    ensures forall k ::
      k in Forget(c, path).entries && k == KeyOf(c.entries[k].path, KindOf(k)) ==> c.entries[k].path != path
    ensures forall k :: k in c.entries && c.entries[k].path != path ==> k in Forget(c, path).entries
  {
    KindOfKey(path, Plain);
    KindOfKey(path, Link);
  }

  lemma StoreKeepsJustified(c: Cache, cmds: seq<Cmd>, world: World, cmd: Cmd, path: Path, kind: Kind, st: Stat)
    requires Justified(c, cmds, world) && world(path, kind, cmd.at) == Some(st)
    requires cmd == Call(cmd.at, path, kind) || (cmd == Insert(cmd.at, path, st) && kind == Plain)
    ensures Justified(Store(c, path, kind, st, cmd.at), cmds + [cmd], world)
  {
    hide Witness, KeyOf, KindOf, PathHash, Covers;
    var c1, more := Store(c, path, kind, st, cmd.at), cmds + [cmd];
    KindOfKey(path, kind);
    NowSeen(cmds, world, cmd, path, kind, st);
    forall k | k in c1.entries
      ensures var e := c1.entries[k];
        k == KeyOf(e.path, KindOf(k)) && exists j :: Witness(more, world, j, e.path, KindOf(k), e.at, e.st)
    {
      var e := c1.entries[k];
      if k != KeyOf(path, kind) || e != Entry(path, st, cmd.at) {
        var j :| Witness(cmds, world, j, e.path, KindOf(k), e.at, e.st);
        CallCovers(cmd, e.path);
        WitnessStays(cmds, world, j, e.path, KindOf(k), e.at, e.st, cmd);
      }
    }
  }

  lemma CallCovers(cmd: Cmd, path: Path)
    ensures cmd.Call? || cmd.Insert? ==> !Covers(cmd, path)
  {}

  lemma NowSeen(cmds: seq<Cmd>, world: World, cmd: Cmd, path: Path, kind: Kind, st: Stat)
    requires world(path, kind, cmd.at) == Some(st)
    requires cmd == Call(cmd.at, path, kind) || (cmd == Insert(cmd.at, path, st) && kind == Plain)
    ensures Witness(cmds + [cmd], world, |cmds|, path, kind, cmd.at, st)
  {}

  lemma FewerKeepsJustified(c: Cache, c1: Cache, cmds: seq<Cmd>, world: World, cmd: Cmd)
    requires Justified(c, cmds, world)
    requires forall k ::
      k in c1.entries ==> k in c.entries && c1.entries[k] == c.entries[k] && !Covers(cmd, c.entries[k].path)
    ensures Justified(c1, cmds + [cmd], world)
  {
    forall k | k in c1.entries
      ensures var e := c1.entries[k];
        k == KeyOf(e.path, KindOf(k)) && exists j :: Witness(cmds + [cmd], world, j, e.path, KindOf(k), e.at, e.st)
    {
      var e := c.entries[k];
      var j :| Witness(cmds, world, j, e.path, KindOf(k), e.at, e.st);
      WitnessStays(cmds, world, j, e.path, KindOf(k), e.at, e.st, cmd);
    }
  }

  /** Dropping a path forgets the entries of the paths it reaches, of both kinds, and no others. */
  lemma DropIsExact(c: Cache, cmd: Cmd, world: World)
    requires cmd.Drop?
    requires forall k :: k in c.entries ==> k == KeyOf(c.entries[k].path, KindOf(k))
    ensures var c1 := Step(c, cmd, world);
      && c1.ttl == c.ttl && c1.entries.Keys <= c.entries.Keys
      && forall k :: k in c.entries ==>
           (k in c1.entries <==> !Covers(cmd, c.entries[k].path)) && (k in c1.entries ==> c1.entries[k] == c.entries[k])
  {
    hide Forget, KeyOf, KindOf, Reaches, Parent;
    ForgetIs(c, cmd.path);
    if Parent(cmd.path).Some? { ForgetIs(Forget(c, cmd.path), Parent(cmd.path).value); }
    forall k | k in c.entries ensures
      k in Step(c, cmd, world).entries <==> !Covers(cmd, c.entries[k].path)
    {
      ParentHolds(cmd.path, c.entries[k].path);
    }
  }

  lemma DropKeepsJustified(c: Cache, cmds: seq<Cmd>, world: World, cmd: Cmd)
    requires Justified(c, cmds, world) && cmd.Drop?
    ensures Justified(Step(c, cmd, world), cmds + [cmd], world)
  {
    DropIsExact(c, cmd, world);
    hide Step, Covers, PathHash, Witness;
    FewerKeepsJustified(c, Step(c, cmd, world), cmds, world, cmd);
  }

  lemma StepKeepsJustified(c: Cache, cmds: seq<Cmd>, world: World, cmd: Cmd)
    requires Justified(c, cmds, world)
    requires cmd.Insert? ==> world(cmd.path, Plain, cmd.at) == Some(cmd.st)
    ensures Justified(Step(c, cmd, world), cmds + [cmd], world)
  {
    match cmd
    case Call(at, path, kind) =>
      hide PathHash, Witness;
      if c.ttl > 0 && Lookup(c, path, kind, at).None? && world(path, kind, at).Some? {
        StoreKeepsJustified(c, cmds, world, cmd, path, kind, world(path, kind, at).value);
      } else {
        FewerKeepsJustified(c, c, cmds, world, cmd);
      }
    case Insert(at, path, st) => StoreKeepsJustified(c, cmds, world, cmd, path, Plain, st);
    case Drop(_, path) => DropKeepsJustified(c, cmds, world, cmd);
    case DropAll(_) => FewerKeepsJustified(c, Step(c, cmd, world), cmds, world, cmd);
  }

  lemma {:induction false} RunsAreJustified(ttl: int, cmds: seq<Cmd>, world: World)
    requires Honest(cmds, world)
    ensures Justified(After(ttl, cmds, world), cmds, world) && After(ttl, cmds, world).ttl == ttl
  {
    if cmds != [] {
      var n := |cmds| - 1;
      RunsAreJustified(ttl, cmds[..n], world);
      var c := After(ttl, cmds[..n], world);
      StepKeepsJustified(c, cmds[..n], world, cmds[n]);
      assert cmds[..n] + [cmds[n]] == cmds;
      if cmds[n].Drop? {
        ForgetIs(c, cmds[n].path);
        if Parent(cmds[n].path).Some? { ForgetIs(Forget(c, cmds[n].path), Parent(cmds[n].path).value); }
      }
    }
  }

  /** Over any honest run, an answer from the cache is what the file system itself answered, to the
      same kind of call for the same path, less than `ttl` seconds before and after the last command
      that forgets the path, whatever paths collide in the hash. */
  lemma HitsAreTrue(ttl: int, cmds: seq<Cmd>, call: Cmd, world: World)
    requires call.Call? && Honest(cmds + [call], world)
    ensures Answer(After(ttl, cmds, world), call, world(call.path, call.kind, call.at)).1 ==>
      var st := Lookup(After(ttl, cmds, world), call.path, call.kind, call.at).value;
      exists j :: (0 <= j < |cmds| && Witness(cmds, world, j, call.path, call.kind, cmds[j].at, st)
                   && cmds[j].at <= call.at < cmds[j].at + ttl)
  {
    assert forall i :: 0 <= i < |cmds| ==> (cmds + [call])[i] == cmds[i];
    assert Honest(cmds, world);
    RunsAreJustified(ttl, cmds, world);
    KindOfKey(call.path, call.kind);
    if Answer(After(ttl, cmds, world), call, world(call.path, call.kind, call.at)).1 {
      var e := After(ttl, cmds, world).entries[KeyOf(call.path, call.kind)];
      var j :| Witness(cmds, world, j, e.path, call.kind, e.at, e.st);
      assert (cmds + [call])[|cmds|] == call;
    }
  }

  /** The partner: until the entry is too old, is forgotten or loses its key to a collision, what was
      stored is found again.  Here, by the next call. */
  lemma StoredIsFound(c: Cache, path: Path, kind: Kind, st: Stat, at: int, now: int)
    requires c.ttl > 0 && now < at + c.ttl
    requires KeyOf(path, kind) in c.entries || |c.entries| < MAX_ENTRIES
    ensures Lookup(Store(c, path, kind, st, at), path, kind, now) == Some(st)
    ensures forall p, k :: KeyOf(p, k) != KeyOf(path, kind) ==>
      Lookup(Store(c, path, kind, st, at), p, k, now) == Lookup(c, p, k, now)
  {}

  // ----- Entries behind pointers --------------------------------------------------------------

  /** No pointer dangles, none is shared, none is NULL, and no entry is lost. */
  ghost predicate Owned(m: map<Key, nat>, heap: map<nat, Entry>) {
    && (forall k :: k in m ==> m[k] in heap && m[k] != 0)
    && (forall k, l :: k in m && l in m && m[k] == m[l] ==> k == l)
    && (forall a :: a in heap ==> exists k :: k in m && m[k] == a)
  }

  ghost function Deref(m: map<Key, nat>, heap: map<nat, Entry>): map<Key, Entry>
    requires Owned(m, heap)
  { map k | k in m :: heap[m[k]] }

  lemma DerefSize(m: map<Key, nat>, heap: map<nat, Entry>)
    requires Owned(m, heap)
    ensures |Deref(m, heap)| == |m|
  { assert Deref(m, heap).Keys == m.Keys; }

  lemma OverwriteEntry(m: map<Key, nat>, heap: map<nat, Entry>, key: Key, e: Entry)
    requires Owned(m, heap) && key in m
    ensures Owned(m, heap[m[key] := e]) && Deref(m, heap[m[key] := e]) == Deref(m, heap)[key := e]
  {}

  lemma AddEntry(m: map<Key, nat>, heap: map<nat, Entry>, key: Key, a: nat, e: Entry)
    requires Owned(m, heap) && key !in m && a !in heap && a != 0
    ensures Owned(m[key := a], heap[a := e]) && Deref(m[key := a], heap[a := e]) == Deref(m, heap)[key := e]
  {
    var m1, heap1 := m[key := a], heap[a := e];
    forall b | b in heap1 ensures exists k :: k in m1 && m1[k] == b {
      if b == a { assert m1[key] == a; } else { var k :| k in m && m[k] == b; assert m1[k] == b; }
    }
  }

  lemma FreeEntry(m: map<Key, nat>, heap: map<nat, Entry>, key: Key)
    requires Owned(m, heap) && key in m
    ensures Owned(m - {key}, heap - {m[key]}) && Deref(m - {key}, heap - {m[key]}) == Deref(m, heap) - {key}
  {
    OwnedWithout(m, heap, key);
    assert forall k :: k in m && k != key ==> m[k] != m[key];
  }

  lemma OwnedWithout(m: map<Key, nat>, heap: map<nat, Entry>, key: Key)
    requires Owned(m, heap) && key in m
    ensures Owned(m - {key}, heap - {m[key]})
  {
    var m1, heap1 := m - {key}, heap - {m[key]};
    forall b | b in heap1 ensures exists k :: k in m1 && m1[k] == b {
      var k :| k in m && m[k] == b;
      assert k in m1;
    }
  }

  lemma AllFreed(ts: Table, heap: map<nat, Entry>, left: map<nat, Entry>)
    requires Unique(ts) && Owned(Contents(ts), heap) && left.Keys <= heap.Keys
    requires forall j :: 0 <= j < |ts| && ts[j].used.Occupied? ==> ts[j].value !in left
    ensures left == map[]
  {
    var m := Contents(ts);
    forall a | a in heap ensures a !in left {
      var k :| k in m && m[k] == a;
      var j :| 0 <= j < |ts| && Holds(ts[j], k);
    }
  }

  // ----- The object ---------------------------------------------------------------------------

  class FsCache {
    var ttl: int
    const table: HashMap
    /** The allocated entries, by address; `next` is an address above all of them. */
    var heap: map<nat, Entry>
    var next: nat

    ghost predicate Invariant()
      reads this, table, table.slots
    {
      && table.Invariant() && table.slots != null && table.cap <= 4 * MAX_ENTRIES
      && Owned(table.Map(), heap) && next > 0 && forall a :: a in heap ==> a < next
    }

    /** The cache that the object stands for. */
    ghost function Value(): (c: Cache)
      requires Invariant()
      reads this, table, table.slots
    {
      Cache(ttl, Deref(table.Map(), heap))
    }

    constructor (ttl: int)
      ensures Invariant() && Value() == Cache(ttl, map[]) && fresh(table) && fresh(table.slots)
    {
      this.ttl := ttl;
      table := new HashMap(INITIAL_CAP, true);
      heap, next := map[], 1;
      new;
      Room();
    }

    lemma Room()
      ensures INITIAL_CAP <= Pow2(63) && 4 * MAX_ENTRIES <= Pow2(62)
    {
      Pow2Monotone(20, 62);
      Pow2Monotone(20, 63);
      assert Pow2(20) == 1024 * 1024 by { Pow2Splits(10, 10); assert Pow2(10) == 1024; }
    }

    method StorePath(path: Path, key: Key, ghost kind: Kind, st: Stat, now: int)
      requires Invariant() && key == KeyOf(path, kind)
      modifies this`heap, this`next, table, table.slots
      ensures Invariant() && (table.slots == old(table.slots) || fresh(table.slots))
      ensures Value() == Store(old(Value()), path, kind, st, now)
    {
      hide Valid, Contents, Live, Unique, PowerOfTwo, Log2, Pow2;
      if ttl <= 0 { return; }
      var p := table.Get(key);
      if p != 0 {
        OverwriteEntry(table.Map(), heap, key, Entry(path, st, now));
        heap := heap[p := Entry(path, st, now)];
        return;
      }
      table.CountIsSize();
      DerefSize(table.Map(), heap);
      if table.count >= MAX_ENTRIES { return; }
      AddPath(path, key, st, now);
    }

    method AddPath(path: Path, key: Key, st: Stat, now: int)
      requires Invariant() && key !in table.Map() && table.count < MAX_ENTRIES
      modifies this`heap, this`next, table, table.slots
      ensures Invariant() && (table.slots == old(table.slots) || fresh(table.slots))
      ensures Value() == old(Value()).(entries := old(Value()).entries[key := Entry(path, st, now)])
    {
      hide Valid, Contents, Live, Unique, PowerOfTwo, Log2, Pow2, Owned, Deref;
      var p := next;
      next := next + 1;
      AddEntry(table.Map(), heap, key, p, Entry(path, st, now));
      heap := heap[p := Entry(path, st, now)];
      Room();
      table.Fits();
      table.Put(key, p, true);
    }

    method LookUp(path: Path, key: Key, ghost kind: Kind, now: int) returns (r: Option<Stat>)
      requires Invariant() && key == KeyOf(path, kind)
      ensures r == Lookup(Value(), path, kind, now)
    {
      hide Valid, Contents, Live, Unique, PowerOfTwo, Log2, Pow2;
      var p := table.Get(key);
      if p == 0 { return None; }
      if heap[p].path != path { return None; }
      if now - heap[p].at >= ttl { return None; }
      return Some(heap[p].st);
    }

    /** `fscache_stat` and `fscache_lstat`; `actual` is what the system call answers when it is made. */
    method StatPath(path: Path, kind: Kind, now: int, actual: Option<Stat>, ghost world: World)
      returns (r: Option<Stat>)
      requires Invariant() && actual == world(path, kind, now)
      modifies this`heap, this`next, table, table.slots
      ensures Invariant() && (table.slots == old(table.slots) || fresh(table.slots))
      ensures Value() == Step(old(Value()), Call(now, path, kind), world)
      ensures r == Answer(old(Value()), Call(now, path, kind), actual).0
    {
      hide Valid, Contents, Live, Unique, PowerOfTwo, Log2, Pow2, Owned, Deref, Store, Lookup, PathHash;
      if ttl <= 0 { return actual; }
      var h := HashPath(path);
      var key := if kind == Plain then h else h + LSTAT_FLAG;
      r := LookUp(path, key, kind, now);
      if r.Some? { return; }
      if actual.None? { return None; }
      StorePath(path, key, kind, actual.value, now);
      return actual;
    }

    /** `fscache_insert`. */
    method InsertPath(path: Path, st: Stat, now: int, ghost world: World)
      requires Invariant()
      modifies this`heap, this`next, table, table.slots
      ensures Invariant() && (table.slots == old(table.slots) || fresh(table.slots))
      ensures Value() == Step(old(Value()), Insert(now, path, st), world)
    {
      hide Valid, Contents, Live, Unique, PowerOfTwo, Log2, Pow2, Owned, Deref;
      var key := HashPath(path);
      StorePath(path, key, Plain, st, now);
    }

    method ForgetEntry(path: Path, key: Key, ghost kind: Kind)
      requires Invariant() && key == KeyOf(path, kind)
      modifies this`heap, table`count, table.slots
      ensures Invariant() && Value() == ForgetKey(old(Value()), path, kind)
    {
      hide Valid, Contents, Live, Unique, PowerOfTwo, Log2, Pow2, PathHash;
      var p := table.Get(key);
      if p != 0 && heap[p].path == path {
        FreeEntry(table.Map(), heap, key);
        heap := heap - {p};
        table.Delete(key);
      }
    }

    method ForgetPath(path: Path)
      requires Invariant()
      modifies this`heap, table`count, table.slots
      ensures Invariant() && Value() == Forget(old(Value()), path)
    {
      hide Valid, Contents, Live, Unique, PowerOfTwo, Log2, Pow2, Owned, Deref;
      var key := HashPath(path);
      ForgetEntry(path, key, Plain);
      ForgetEntry(path, key + LSTAT_FLAG, Link);
    }

    /** `fscache_invalidate`. */
    method InvalidatePath(path: Path, now: int, ghost world: World)
      requires Invariant()
      modifies this`heap, table`count, table.slots
      ensures Invariant() && Value() == Step(old(Value()), Drop(now, path), world)
    {
      hide Valid, Contents, Live, Unique, PowerOfTwo, Log2, Pow2, Owned, Deref, Forget;
      ForgetPath(path);
      var slash := |path| - 1;
      while slash >= 0 && path[slash] != '/'
        invariant -1 <= slash < |path| && LastSlash(path[..slash + 1]) == LastSlash(path)
        invariant Invariant() && Value() == Forget(old(Value()), path)
        decreases slash
      {
        assert path[..slash + 1][..slash] == path[..slash];
        slash := slash - 1;
      }
      if slash > 0 {
        if slash < PATH_MAX { ForgetPath(path[..slash]); }
      } else if slash == 0 {
        ForgetPath("/");
      } else {
        ForgetPath(".");
      }
    }

    /** Every entry is freed and every slot emptied in place. */
    method EmptySlots(slots: array<Slot>)
      requires 0 !in heap
      modifies this`heap, slots
      ensures forall j :: 0 <= j < slots.Length ==> slots[j].used.Empty?
      ensures heap.Keys <= old(heap).Keys
      ensures forall j :: 0 <= j < slots.Length && old(slots[j].used.Occupied?) ==> old(slots[j].value) !in heap
    {
      for i := 0 to slots.Length
        invariant forall j :: 0 <= j < i ==> slots[j].used.Empty?
        invariant forall j :: i <= j < slots.Length ==> slots[j] == old(slots[j])
        invariant heap.Keys <= old(heap).Keys
        invariant forall j :: 0 <= j < i && old(slots[j].used.Occupied?) ==> old(slots[j].value) !in heap
      {
        var s := slots[i];
        if s.used.Occupied? && s.value != 0 { heap := heap - {s.value}; }
        slots[i] := slots[i].(value := 0, used := Empty);
      }
    }

    /** `fscache_invalidate_all`. */
    method InvalidateAll(now: int, ghost world: World)
      requires Invariant()
      modifies this`heap, table`count, table.slots
      ensures Invariant() && Value() == Step(old(Value()), DropAll(now), world)
    {
      hide Log2, Pow2, Live, PathHash, LastSlash;
      var slots := table.slots;
      ghost var ts := slots[..];
      EmptySlots(slots);
      table.count := 0;
      AllFreed(ts, old(heap), heap);
      EmptyTable(slots[..]);
    }
  }
}
