/** The open-addressing hash map with tombstones.

    Tables are sequences of slots; `Valid` is the invariant that makes linear probing find every
    key, `Contents` the map a table stands for.  The class `HashMap` keeps its table in an array and
    is proved against them. */
module HashMaps {
  import opened Powers

  // ----- Hashing ------------------------------------------------------------------------------

  const FIB_HASH: nat := 11400714819323198485

  type Key = k: nat | k < TWO64 witness 0

  function Log2(n: nat): nat { if n <= 1 then 0 else 1 + Log2(n / 2) }

  predicate PowerOfTwo(cap: nat) { cap == Pow2(Log2(cap)) && Log2(cap) <= 63 && cap >= 2 }

  lemma Pow2Monotone(a: nat, b: nat)
    requires a <= b
    ensures Pow2(a) <= Pow2(b)
  { if a < b { Pow2Monotone(a, b - 1); } }

  lemma Pow2Reflects(a: nat, b: nat)
    requires Pow2(a) < Pow2(b)
    ensures a < b
  { if a > 0 && b > 0 { Pow2Reflects(a - 1, b - 1); } }

  lemma Log2OfPow2(e: nat)
    ensures Log2(Pow2(e)) == e
  { if e > 0 { Log2OfPow2(e - 1); assert Pow2(e) / 2 == Pow2(e - 1); } }

  lemma QuotientBelow(x: nat, d: nat, c: nat)
    requires d > 0 && x < d * c
    ensures x / d < c
  { ScaledBelow(x / d, d, c); }

  lemma ScaledBelow(q: nat, d: nat, c: nat)
    requires d * q < d * c
    ensures q < c
  {}

  lemma TopBits(x: nat, cap: nat)
    requires x < TWO64 && PowerOfTwo(cap)
    ensures Log2(cap) <= 64 && x / Pow2(64 - Log2(cap)) < cap
  {
    Pow2Splits(64 - Log2(cap), Log2(cap));
    Pow2Of64();
    QuotientBelow(x, Pow2(64 - Log2(cap)), cap);
  }

  function Product(key: Key): (x: nat)
    ensures x < TWO64
  { key * FIB_HASH % TWO64 }

  /** Fibonacci hashing: the top bits of the 64-bit product. */
  function SlotIndex(key: Key, cap: nat): (i: nat)
    requires PowerOfTwo(cap)
    ensures i < cap
  {
    hide Pow2, Log2, PowerOfTwo, Product;
    TopBits(Product(key), cap);
    Product(key) / Pow2(64 - Log2(cap))
  }

  lemma Log2Doubles(n: nat)
    requires n > 0
    ensures Log2(2 * n) == Log2(n) + 1
  { assert 2 * n / 2 == n; }

  lemma Pow2Doubles(n: nat)
    ensures Pow2(n + 1) == 2 * Pow2(n)
  {}

  lemma DoubledIsPower(cap: nat)
    requires PowerOfTwo(cap) && Log2(cap) < 63
    ensures PowerOfTwo(2 * cap)
  {
    hide Log2, Pow2;
    Log2Doubles(cap);
    Pow2Doubles(Log2(cap));
  }

  // ----- Tables -------------------------------------------------------------------------------

  datatype Used = Empty | Occupied | Tombstone

  /** `value` is a pointer, 0 being NULL. */
  datatype Slot = Slot(key: Key, value: nat, used: Used)

  type Table = seq<Slot>

  predicate Holds(s: Slot, key: Key) { s.used.Occupied? && s.key == key }

  /** The `t`-th slot probed for `key`: the mask `& (cap - 1)` wraps an index below `2 * cap`. */
  function Probe(key: Key, cap: nat, t: nat): (p: nat)
    requires PowerOfTwo(cap) && t <= cap
    ensures t < cap ==> p < cap
  {
    var i := SlotIndex(key, cap) + t;
    if i < cap then i else i - cap
  }

  /** When slot `i` is probed for `key`. */
  function Distance(key: Key, cap: nat, i: nat): (t: nat)
    requires PowerOfTwo(cap) && i < cap
    ensures t < cap && Probe(key, cap, t) == i
    ensures forall u :: 0 <= u < cap && Probe(key, cap, u) == i ==> u == t
  {
    var h := SlotIndex(key, cap);
    if i >= h then i - h else i + cap - h
  }

  /** No empty slot stops the search for `key` before it reaches slot `i`. */
  predicate Reachable(ts: Table, key: Key, i: nat)
    requires PowerOfTwo(|ts|) && i < |ts|
  {
    forall t :: 0 <= t < Distance(key, |ts|, i) ==> !ts[Probe(key, |ts|, t)].used.Empty?
  }

  predicate Unique(ts: Table) {
    forall i, j :: 0 <= i < |ts| && 0 <= j < |ts| && ts[i].used.Occupied? && Holds(ts[j], ts[i].key) ==> i == j
  }

  predicate Valid(ts: Table) {
    && PowerOfTwo(|ts|)
    && Unique(ts)
    && forall i :: 0 <= i < |ts| && ts[i].used.Occupied? ==> Reachable(ts, ts[i].key, i)
  }

  /** The map that a table stands for. */
  function Contents(ts: Table): (m: map<Key, nat>)
    requires Unique(ts)
    ensures forall i :: 0 <= i < |ts| && ts[i].used.Occupied? ==> ts[i].key in m && m[ts[i].key] == ts[i].value
    ensures forall k :: k in m ==> exists i :: 0 <= i < |ts| && Holds(ts[i], k)
  {
    map s | s in ts && s.used.Occupied? :: s.key := s.value
  }

  /** The number of live entries. */
  function Live(ts: Table): (n: nat)
    ensures n <= |ts|
  {
    if ts == [] then 0 else Live(ts[..|ts| - 1]) + if ts[|ts| - 1].used.Occupied? then 1 else 0
  }

  predicate Full(ts: Table) { forall i :: 0 <= i < |ts| ==> ts[i].used.Occupied? }

  lemma {:induction false} LiveUpdate(ts: Table, i: nat, s: Slot)
    requires i < |ts|
    ensures Live(ts[i := s]) == Live(ts) - (if ts[i].used.Occupied? then 1 else 0) + if s.used.Occupied? then 1 else 0
  {
    var n := |ts| - 1;
    if i == n {
      assert ts[i := s][..n] == ts[..n];
    } else {
      assert ts[i := s][..n] == ts[..n][i := s];
      LiveUpdate(ts[..n], i, s);
    }
  }

  lemma {:induction false} FullWhenAllLive(ts: Table)
    ensures Full(ts) <==> Live(ts) == |ts|
  {
    if ts != [] {
      var n := |ts| - 1;
      FullWhenAllLive(ts[..n]);
      assert Full(ts) <==> Full(ts[..n]) && ts[n].used.Occupied? by {
        assert forall i :: 0 <= i < n ==> ts[i] == ts[..n][i];
      }
    }
  }

  predicate IsMapOf(m: map<Key, nat>, ts: Table) {
    && (forall i :: 0 <= i < |ts| && ts[i].used.Occupied? ==> ts[i].key in m && m[ts[i].key] == ts[i].value)
    && (forall k :: k in m ==> exists i :: 0 <= i < |ts| && Holds(ts[i], k))
  }

  lemma ContentsAre(m: map<Key, nat>, ts: Table)
    requires Unique(ts) && IsMapOf(m, ts)
    ensures Contents(ts) == m
  {
    var c := Contents(ts);
    forall k | k in c ensures k in m && m[k] == c[k] { var i :| 0 <= i < |ts| && Holds(ts[i], k); }
    forall k | k in m ensures k in c { var i :| 0 <= i < |ts| && Holds(ts[i], k); }
  }

  lemma UniquePrefix(ts: Table, n: nat)
    requires Unique(ts) && n <= |ts|
    ensures Unique(ts[..n])
  {}

  lemma NotBefore(ts: Table, n: nat)
    requires Unique(ts) && n < |ts| && ts[n].used.Occupied?
    ensures forall i :: 0 <= i < n ==> !Holds(ts[i], ts[n].key)
  {}

  lemma PrefixContents(ts: Table, n: nat)
    requires Unique(ts) && n < |ts|
    ensures Unique(ts[..n]) && Unique(ts[..n + 1])
    ensures var m := Contents(ts[..n]);
      Contents(ts[..n + 1]) == if ts[n].used.Occupied? then m[ts[n].key := ts[n].value] else m
    ensures ts[n].used.Occupied? ==> ts[n].key !in Contents(ts[..n])
  {
    hide Unique;
    UniquePrefix(ts, n);
    UniquePrefix(ts, n + 1);
    if ts[n].used.Occupied? { NotBefore(ts, n); }
    var a, b := ts[..n], ts[..n + 1];
    assert forall i :: 0 <= i < n ==> a[i] == b[i] == ts[i];
    assert b[n] == ts[n];
    var m := if ts[n].used.Occupied? then Contents(a)[ts[n].key := ts[n].value] else Contents(a);
    hide Contents;
    forall i | 0 <= i < |b| && b[i].used.Occupied? ensures b[i].key in m && m[b[i].key] == b[i].value {
      if i < n { assert a[i].used.Occupied? && (ts[n].used.Occupied? ==> !Holds(ts[i], ts[n].key)); }
    }
    forall k | k in m ensures exists i :: 0 <= i < |b| && Holds(b[i], k) {
      if k in Contents(a) { var i :| 0 <= i < n && Holds(a[i], k); assert Holds(b[i], k); }
      else { assert Holds(b[n], k); }
    }
    ContentsAre(m, b);
  }

  /** `count` is the size of the map. */
  lemma {:induction false} LiveIsSize(ts: Table)
    requires Unique(ts)
    ensures Live(ts) == |Contents(ts)|
  {
    if ts != [] {
      var n := |ts| - 1;
      assert ts[..n + 1] == ts;
      PrefixContents(ts, n);
      LiveIsSize(ts[..n]);
    }
  }

  // ----- Searching ----------------------------------------------------------------------------

  /** `find_slot` from its `i`-th probe on, the first tombstone so far being `ts0`. */
  function FindFrom(ts: Table, key: Key, i: nat, ts0: nat): (r: (nat, bool))
    requires PowerOfTwo(|ts|) && i <= |ts| && ts0 <= |ts|
    ensures r.0 <= |ts|
    decreases |ts| - i
  {
    if i == |ts| then (ts0, false) else
    var p := Probe(key, |ts|, i);
    if Holds(ts[p], key) then (p, true)
    else if ts[p].used.Empty? then (if ts0 < |ts| then ts0 else p, false)
    else FindFrom(ts, key, i + 1, if ts[p].used.Tombstone? && ts0 == |ts| then p else ts0)
  }

  function Find(ts: Table, key: Key): (r: (nat, bool))
    requires PowerOfTwo(|ts|)
    ensures r.0 <= |ts|
  {
    FindFrom(ts, key, 0, |ts|)
  }

  /** What a search may return: the slot of the key, a slot where the key may be put, or `cap`. */
  predicate Found(ts: Table, key: Key, r: (nat, bool))
    requires PowerOfTwo(|ts|) && r.0 <= |ts|
  {
    if r.1 then r.0 < |ts| && Holds(ts[r.0], key)
    else
      && (forall i :: 0 <= i < |ts| ==> !Holds(ts[i], key))
      && (if r.0 < |ts| then !ts[r.0].used.Occupied? && Reachable(ts, key, r.0) else Full(ts))
  }

  lemma {:induction false} FindFromIsExact(ts: Table, key: Key, i: nat, ts0: nat)
    requires Valid(ts) && i <= |ts| && ts0 <= |ts|
    requires forall t :: 0 <= t < i ==>
      var s := ts[Probe(key, |ts|, t)]; !s.used.Empty? && !Holds(s, key) && (ts0 == |ts| ==> s.used.Occupied?)
    requires ts0 < |ts| ==> ts[ts0].used.Tombstone? && Distance(key, |ts|, ts0) < i
    ensures Found(ts, key, FindFrom(ts, key, i, ts0))
    decreases |ts| - i
  {
    var cap := |ts|;
    if i == cap {
      forall j | 0 <= j < cap ensures !Holds(ts[j], key) && (ts0 == cap ==> ts[j].used.Occupied?) {
        var t := Distance(key, cap, j);
        assert Probe(key, cap, t) == j;
      }
    } else {
      var p := Probe(key, cap, i);
      assert Distance(key, cap, p) == i;
      if Holds(ts[p], key) {
      } else if ts[p].used.Empty? {
        forall j | 0 <= j < cap ensures !Holds(ts[j], key) {
          var t := Distance(key, cap, j);
          if t < i {
            assert Probe(key, cap, t) == j;
          } else if t > i {
            assert !Reachable(ts, key, j);
          }
        }
      } else {
        FindFromIsExact(ts, key, i + 1, if ts[p].used.Tombstone? && ts0 == cap then p else ts0);
      }
    }
  }

  /** Probing finds a key exactly when the map has it, though tombstones and other keys lie on the
      way and though the table may have no empty slot at all. */
  lemma FindIsExact(ts: Table, key: Key)
    requires Valid(ts)
    ensures Found(ts, key, Find(ts, key))
    ensures Find(ts, key).1 <==> key in Contents(ts)
    ensures Find(ts, key).1 ==> Contents(ts)[key] == ts[Find(ts, key).0].value
  {
    FindFromIsExact(ts, key, 0, |ts|);
  }

  // ----- Updating -----------------------------------------------------------------------------

  /** The map of a table one slot of which is overwritten. */
  lemma OverwrittenContents(ts: Table, i: nat, s: Slot)
    requires i < |ts| && Unique(ts) && Unique(ts[i := s])
    ensures var rest := if ts[i].used.Occupied? then Contents(ts) - {ts[i].key} else Contents(ts);
      Contents(ts[i := s]) == if s.used.Occupied? then rest[s.key := s.value] else rest
  {
    var us := ts[i := s];
    var rest := if ts[i].used.Occupied? then Contents(ts) - {ts[i].key} else Contents(ts);
    var m := if s.used.Occupied? then rest[s.key := s.value] else rest;
    forall a | 0 <= a < |us| && us[a].used.Occupied? ensures us[a].key in m && m[us[a].key] == us[a].value {
      if a != i {
        assert ts[a] == us[a];
        assert ts[i].used.Occupied? ==> !Holds(ts[a], ts[i].key);
        assert s.used.Occupied? ==> !Holds(us[a], us[i].key);
      }
    }
    forall k | k in m ensures exists a :: 0 <= a < |us| && Holds(us[a], k) {
      if s.used.Occupied? && k == s.key {
        assert Holds(us[i], k);
      } else {
        var a :| 0 <= a < |ts| && Holds(ts[a], k);
        assert a != i && Holds(us[a], k);
      }
    }
    ContentsAre(m, us);
  }

  /** A live entry written over the key's own slot, or over a free slot where the key may go. */
  lemma WriteKeepsValid(ts: Table, key: Key, value: nat, i: nat)
    requires Valid(ts) && i < |ts|
    requires Holds(ts[i], key) || (!ts[i].used.Occupied? && Reachable(ts, key, i) && key !in Contents(ts))
    ensures var us := ts[i := Slot(key, value, Occupied)];
      Valid(us) && Contents(us) == Contents(ts)[key := value]
      && Live(us) == Live(ts) + if key in Contents(ts) then 0 else 1
  {
    hide SlotIndex, Live, Log2, Pow2, PowerOfTwo, Contents;
    var s, cap := Slot(key, value, Occupied), |ts|;
    var us := ts[i := s];
    LiveUpdate(ts, i, s);
    forall a, b | 0 <= a < cap && 0 <= b < cap && us[a].used.Occupied? && Holds(us[b], us[a].key) ensures a == b {
      if a != i && b != i { assert Holds(ts[b], ts[a].key); }
    }
    forall a | 0 <= a < cap && us[a].used.Occupied? ensures Reachable(us, us[a].key, a) {
      assert Reachable(ts, us[a].key, a);
    }
    OverwrittenContents(ts, i, s);
    assert (Contents(ts) - {key})[key := value] == Contents(ts)[key := value];
  }

  /** A tombstone in place of a live entry: every other chain stays unbroken. */
  lemma EraseKeepsValid(ts: Table, key: Key, i: nat)
    requires Valid(ts) && i < |ts| && Holds(ts[i], key)
    ensures var us := ts[i := Slot(key, 0, Tombstone)];
      Valid(us) && Contents(us) == Contents(ts) - {key} && Live(us) == Live(ts) - 1
  {
    var us, cap := ts[i := Slot(key, 0, Tombstone)], |ts|;
    LiveUpdate(ts, i, us[i]);
    forall a, b | 0 <= a < cap && 0 <= b < cap && us[a].used.Occupied? && Holds(us[b], us[a].key) ensures a == b {
      assert Holds(ts[b], ts[a].key);
    }
    forall a | 0 <= a < cap && us[a].used.Occupied? ensures Reachable(us, us[a].key, a) {
      assert Reachable(ts, us[a].key, a);
    }
    OverwrittenContents(ts, i, us[i]);
  }

  const FREE := Slot(0, 0, Empty)

  lemma {:induction false} NothingLive(ts: Table)
    requires forall i :: 0 <= i < |ts| ==> ts[i].used.Empty?
    ensures Live(ts) == 0
  { if ts != [] { NothingLive(ts[..|ts| - 1]); } }

  lemma EmptyTable(ts: Table)
    requires PowerOfTwo(|ts|) && forall i :: 0 <= i < |ts| ==> ts[i].used.Empty?
    ensures Valid(ts) && Contents(ts) == map[] && Live(ts) == 0
  {
    NothingLive(ts);
    LiveIsSize(ts);
  }

  // ----- The object ---------------------------------------------------------------------------

  class HashMap {
    var slots: array?<Slot>
    var cap: nat
    var count: nat

    ghost predicate Invariant()
      reads this, slots
    {
      if slots == null then cap == 0 && count == 0
      else cap == slots.Length && Valid(slots[..]) && count == Live(slots[..])
    }

    /** What the object maps; an object without a table maps nothing. */
    ghost function Map(): map<Key, nat>
      requires Invariant()
      reads this, slots
    {
      if slots == null then map[] else Contents(slots[..])
    }

    /** The loop of `hm_init`: the least power of two that is at least 8 and `initialCap`. */
    static method TableSize(initialCap: nat) returns (size: nat)
      requires initialCap <= Pow2(63)
      ensures PowerOfTwo(size) && size >= initialCap && size >= 8 && (size < 16 || size < 2 * initialCap)
    {
      hide Log2;
      var wanted := if initialCap < 8 then 8 else initialCap;
      size := 1;
      ghost var e := 0;
      while size < wanted
        invariant size == Pow2(e) && e <= 63 && (size < wanted ==> e < 63)
        invariant size == 1 || size < 2 * wanted
        decreases wanted - size
      {
        size := 2 * size;
        e := e + 1;
        if e >= 63 { Pow2Monotone(63, e); }
      }
      Log2OfPow2(e);
    }

    /** `hm_init`; `granted` tells whether `calloc` succeeds. */
    constructor (initialCap: nat, granted: bool)
      requires initialCap <= Pow2(63)
      ensures Invariant() && Map() == map[] && count == 0
      ensures if granted then slots != null && fresh(slots) && cap >= initialCap && cap >= 8 else slots == null
      ensures cap < 16 || cap < 2 * initialCap
    {
      hide Valid, PowerOfTwo, Contents, Live, Unique, Log2, Pow2;
      var size := TableSize(initialCap);
      cap, count := 0, 0;
      slots := null;
      new;
      if granted {
        var table := new Slot[size](_ => FREE);
        slots, cap := table, size;
        EmptyTable(slots[..]);
      }
    }

    lemma CountIsSize()
      requires Invariant()
      ensures count == |Map()|
    { if slots != null { LiveIsSize(slots[..]); } }

    lemma TableNotEmpty()
      requires Invariant() && slots != null
      ensures cap > 0
    {}

    lemma CountInTable()
      requires Invariant()
      ensures count <= cap
    {}

    lemma Fits()
      requires Invariant() && slots != null && cap <= Pow2(62)
      ensures Log2(cap) < 63
    { SmallPower(cap); }

    method FindSlot(table: array<Slot>, key: Key) returns (idx: nat, found: bool)
      requires PowerOfTwo(table.Length)
      ensures (idx, found) == Find(table[..], key)
    {
      var size := table.Length;
      var home: nat, firstTs: nat, i: nat := SlotIndex(key, size), size, 0;
      while i < size
        invariant i <= size && firstTs <= size
        invariant FindFrom(table[..], key, i, firstTs) == Find(table[..], key)
      {
        var probe := if home + i < size then home + i else home + i - size;
        var s := table[probe];
        if s.used.Occupied? && s.key == key { return probe, true; }
        if s.used.Empty? { return if firstTs < size then firstTs else probe, false; }
        if s.used.Tombstone? && firstTs == size { firstTs := probe; }
        i := i + 1;
      }
      return firstTs, false;
    }

    /** One turn of the loop of `resize`: the slot at `i` of the old table moves if it is live. */
    method MoveSlot(table: array<Slot>, s: Slot, ghost ts: Table, ghost i: nat)
      requires i < |ts| < table.Length && ts[i] == s && Unique(ts) && Unique(ts[..i])
      requires Valid(table[..]) && Contents(table[..]) == Contents(ts[..i])
      modifies table
      ensures Valid(table[..]) && Unique(ts[..i + 1]) && Contents(table[..]) == Contents(ts[..i + 1])
    {
      hide FindFrom, SlotIndex, Probe, Reachable, Live, Log2, Pow2, PowerOfTwo, Unique, Contents;
      PrefixContents(ts, i);
      if s.used.Occupied? {
        FindIsExact(table[..], s.key);
        var idx, found := FindSlot(table, s.key);
        LiveIsSize(table[..]);
        LiveIsSize(ts[..i]);
        FullWhenAllLive(table[..]);
        ghost var before := table[..];
        WriteKeepsValid(before, s.key, s.value, idx);
        table[idx] := Slot(s.key, s.value, Occupied);
        assert table[..] == before[idx := Slot(s.key, s.value, Occupied)];
      }
    }

    /** `resize`: all live entries move to a table of twice the size, which has no tombstones. */
    method Resize(granted: bool)
      requires Invariant() && slots != null && (granted ==> Log2(cap) < 63)
      modifies this
      ensures Invariant() && Map() == old(Map()) && count == old(count)
      ensures if granted then slots != null && fresh(slots) && cap == 2 * old(cap)
              else slots == old(slots) && cap == old(cap)
    {
      hide FindFrom, SlotIndex, Probe, Reachable, Live, Log2, Pow2, PowerOfTwo, Unique, Contents;
      if !granted { return; }
      DoubledIsPower(cap);
      var size := 2 * cap;
      var table := new Slot[size](_ => FREE);
      EmptyTable(table[..]);
      ghost var ts := slots[..];
      assert Valid(ts);
      UniquePrefix(ts, 0);
      ContentsAre(map[], ts[..0]);
      for i := 0 to cap
        invariant slots[..] == ts && Valid(table[..]) && Unique(ts[..i]) && Contents(table[..]) == Contents(ts[..i])
        modifies table
      {
        MoveSlot(table, slots[i], ts, i);
      }
      assert ts[..cap] == ts;
      LiveIsSize(ts);
      LiveIsSize(table[..]);
      slots, cap := table, size;
    }

    /** `hm_get`: NULL when the key is absent. */
    method Get(key: Key) returns (value: nat)
      requires Invariant()
      ensures value == if key in Map() then Map()[key] else 0
    {
      if slots == null { return 0; }
      FindIsExact(slots[..], key);
      var idx, found := FindSlot(slots, key);
      if !found { return 0; }
      return slots[idx].value;
    }

    /** The part of `hm_put` behind the resizing. */
    method Store(key: Key, value: nat)
      requires Invariant() && slots != null
      modifies this`count, slots
      ensures Invariant() && old(count) <= count <= old(count) + 1
      ensures Map() == if key !in old(Map()) && old(count) == cap then old(Map()) else old(Map())[key := value]
    {
      hide FindFrom, SlotIndex, Probe, Reachable, Live, Log2, Pow2, PowerOfTwo, Unique, Contents, Full;
      FindIsExact(slots[..], key);
      var idx, found := FindSlot(slots, key);
      LiveIsSize(slots[..]);
      FullWhenAllLive(slots[..]);
      if idx >= cap { return; }
      ghost var ts := slots[..];
      WriteKeepsValid(ts, key, value, idx);
      if !found {
        slots[idx] := slots[idx].(key := key, used := Occupied);
        count := count + 1;
      }
      slots[idx] := slots[idx].(value := value);
      assert slots[..] == ts[idx := Slot(key, value, Occupied)];
    }

    /** `hm_put`.  When a needed allocation fails, a new key is dropped, silently, if and only if
        every slot is taken by another key; in every other case the map is updated. */
    method Put(key: Key, value: nat, granted: bool)
      requires Invariant() && (granted && slots != null && count + 1 > cap * 3 / 4 ==> Log2(cap) < 63)
      modifies this, slots
      ensures Invariant() && (old(slots) == null <==> slots == null)
      ensures slots == old(slots) || fresh(slots)
      ensures cap == if granted && old(count) + 1 > old(cap) * 3 / 4 then 2 * old(cap) else old(cap)
      ensures count <= old(count) + 1
      ensures Map() ==
        if old(slots) == null || (!granted && key !in old(Map()) && old(count) == old(cap)) then old(Map())
        else old(Map())[key := value]
    {
      hide Live, Log2, Contents;
      if slots == null { return; }
      CountInTable();
      TableNotEmpty();
      if count + 1 > cap * 3 / 4 { Resize(granted); }
      Store(key, value);
    }

    method Delete(key: Key)
      requires Invariant()
      modifies this`count, slots
      ensures Invariant() && Map() == old(Map()) - {key} && count <= old(count)
    {
      hide FindFrom, SlotIndex, Probe, Reachable, Live, Log2, Pow2, Unique, Contents;
      if slots == null { return; }
      FindIsExact(slots[..], key);
      var idx, found := FindSlot(slots, key);
      if !found { return; }
      ghost var ts := slots[..];
      EraseKeepsValid(ts, key, idx);
      slots[idx] := slots[idx].(value := 0, used := Tombstone);
      if count > 0 { count := count - 1; }
      assert slots[..] == ts[idx := Slot(key, 0, Tombstone)];
    }
  }

  // ----- Whole runs ---------------------------------------------------------------------------

  datatype Op = Put(key: Key, value: nat) | Get(key: Key) | Delete(key: Key)

  function MapStep(m: map<Key, nat>, op: Op): map<Key, nat> {
    match op
    case Put(k, v) => m[k := v]
    case Get(_) => m
    case Delete(k) => m - {k}
  }

  function MapAnswer(m: map<Key, nat>, op: Op): seq<nat> {
    if op.Get? then [if op.key in m then m[op.key] else 0] else []
  }

  /** A run over a mathematical map: the final map and the answers of its `Get`s. */
  function MapRun(m: map<Key, nat>, ops: seq<Op>): (map<Key, nat>, seq<nat>) {
    if ops == [] then (m, []) else
    var (m1, answers) := MapRun(m, ops[..|ops| - 1]);
    (MapStep(m1, ops[|ops| - 1]), answers + MapAnswer(m1, ops[|ops| - 1]))
  }

  lemma SmallPower(cap: nat)
    requires PowerOfTwo(cap) && cap <= Pow2(62)
    ensures Log2(cap) < 63
  { BoundsInOrder(); Pow2Reflects(Log2(cap), 63); }

  /** A map and the capacity of its table; 0 when there is no table. */
  datatype Limited = Limited(m: map<Key, nat>, cap: nat)

  /** The map as it is when an allocation may fail. */
  function LimitedStep(r: Limited, op: Op, granted: bool): Limited {
    match op
    case Put(k, v) =>
      if r.cap == 0 || (!granted && k !in r.m && |r.m| == r.cap) then r
      else Limited(r.m[k := v], if granted && |r.m| + 1 > r.cap * 3 / 4 then 2 * r.cap else r.cap)
    case Get(_) => r
    case Delete(k) => r.(m := r.m - {k})
  }

  function LimitedRun(r: Limited, ops: seq<Op>, grants: seq<bool>): (Limited, seq<nat>)
    requires |ops| == |grants|
  {
    if ops == [] then (r, []) else
    var n := |ops| - 1;
    var (r1, answers) := LimitedRun(r, ops[..n], grants[..n]);
    (LimitedStep(r1, ops[n], grants[n]), answers + MapAnswer(r1.m, ops[n]))
  }

  /** When no allocation fails nothing is lost. */
  lemma {:induction false} GrantedRun(r: Limited, ops: seq<Op>, grants: seq<bool>)
    requires |ops| == |grants| && r.cap > 0 && forall i :: 0 <= i < |grants| ==> grants[i]
    ensures var (r1, answers) := LimitedRun(r, ops, grants);
      (r1.m, answers) == MapRun(r.m, ops) && r1.cap > 0
  { if ops != [] { GrantedRun(r, ops[..|ops| - 1], grants[..|ops| - 1]); } }

  /** The first `n` keys. */
  function PutKeys(n: nat): (ops: seq<Op>)
    requires n <= TWO64
    ensures |ops| == n
  { seq(n, i requires 0 <= i < n => Put(i, 1)) }

  /** What the first `n` of them leave. */
  function Ones(n: nat): (m: map<Key, nat>)
    requires n <= TWO64
    ensures |m| == n && forall k: Key :: k in m <==> k < n
  { if n == 0 then map[] else Ones(n - 1)[n - 1 := 1] }

  /** When every allocation fails exactly as many keys are kept as the table has slots. */
  lemma {:induction false} DeniedRun(cap: nat, n: nat)
    requires 0 < cap && n <= TWO64
    ensures LimitedRun(Limited(map[], cap), PutKeys(n), seq(n, _ => false)).0
         == Limited(Ones(if n < cap then n else cap), cap)
  {
    if n > 0 {
      var ops, grants := PutKeys(n), seq(n, _ => false);
      assert ops[..n - 1] == PutKeys(n - 1) && grants[..n - 1] == seq(n - 1, _ => false);
      hide PutKeys;
      DeniedRun(cap, n - 1);
    }
  }

  /** Any sequence of operations on a fresh object gives the answers of the map with a limit, and
      without a failed allocation those of a mathematical map; `count` is the size of that map at the
      end.  The bounds keep the capacity, a `size_t`, from wrapping around. */
  method RunAll(initialCap: nat, table: bool, ops: seq<Op>, grants: seq<bool>)
    returns (h: HashMap, start: nat, answers: seq<nat>)
    requires initialCap <= Pow2(61) && |ops| == |grants| <= Pow2(60)
    ensures fresh(h) && h.Invariant() && h.count == |h.Map()|
    ensures if table then start >= 8 && start >= initialCap else start == 0
    ensures (Limited(h.Map(), h.cap), answers) == LimitedRun(Limited(map[], start), ops, grants)
    ensures table && (forall i :: 0 <= i < |grants| ==> grants[i]) ==> (h.Map(), answers) == MapRun(map[], ops)
  {
    hide PowerOfTwo, Log2, Pow2, Valid, Contents, Unique, Live, LimitedRun, LimitedStep, MapAnswer;
    BoundsInOrder();
    h := new HashMap(initialCap, table);
    NoOps(Limited(map[], h.cap));
    start, answers := h.cap, [];
    for i := 0 to |ops|
      invariant fresh(h) && (h.slots != null ==> fresh(h.slots)) && h.Invariant()
      invariant (Limited(h.Map(), h.cap), answers) == LimitedRun(Limited(map[], start), ops[..i], grants[..i])
      invariant h.cap <= Pow2(62) && h.count <= i
    {
      OneMoreOp(Limited(map[], start), ops, grants, i);
      var answer := Do(h, ops[i], grants[i]);
      answers := answers + answer;
    }
    assert ops[..|ops|] == ops && grants[..|ops|] == grants;
    h.CountIsSize();
    if table && forall i :: 0 <= i < |grants| ==> grants[i] { GrantedRun(Limited(map[], start), ops, grants); }
  }

  method Do(h: HashMap, op: Op, granted: bool) returns (answer: seq<nat>)
    requires h.Invariant() && h.cap <= Pow2(62)
    modifies h, h.slots
    ensures h.Invariant() && (h.slots == old(h.slots) || fresh(h.slots))
    ensures Limited(h.Map(), h.cap) == LimitedStep(old(Limited(h.Map(), h.cap)), op, granted)
    ensures answer == MapAnswer(old(h.Map()), op)
    ensures h.count <= old(h.count) + 1
    ensures h.cap == old(h.cap) || (h.cap == 2 * old(h.cap) && old(h.count) + 1 > old(h.cap) * 3 / 4)
  {
    hide PowerOfTwo, Log2, Pow2, Valid, Contents, Unique, Live;
    h.CountIsSize();
    answer := [];
    match op
    case Put(k, v) =>
      if h.slots != null { h.Fits(); h.TableNotEmpty(); }
      h.Put(k, v, granted);
    case Get(k) =>
      var v := h.Get(k);
      answer := [v];
    case Delete(k) => h.Delete(k);
  }

  lemma NoOps(r: Limited)
    ensures LimitedRun(r, [], []) == (r, [])
  {}

  lemma OneMoreOp(r: Limited, ops: seq<Op>, grants: seq<bool>, i: nat)
    requires i < |ops| == |grants|
    ensures var (r1, answers) := LimitedRun(r, ops[..i], grants[..i]);
      && LimitedRun(r, ops[..i + 1], grants[..i + 1])
         == (LimitedStep(r1, ops[i], grants[i]), answers + MapAnswer(r1.m, ops[i]))
  { assert ops[..i + 1][..i] == ops[..i] && grants[..i + 1][..i] == grants[..i]; }

  lemma BoundsInOrder()
    ensures Pow2(62) == 2 * Pow2(61) == 4 * Pow2(60) && Pow2(62) >= 16 && Pow2(63) == 2 * Pow2(62)
  { Pow2Monotone(4, 62); }
}
