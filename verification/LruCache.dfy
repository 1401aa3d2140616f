/**
 One shard of the LRU cache (util/cache.cc): reference counts, the two lists and the
 hash table kept in step. The circular lists are sequences, oldest entry first.
 */
module LruCache {
  import opened Wrappers
  import opened Keys
  import opened HandleTables

  /** The part of an LRUHandle that changes. */
  datatype Status = Status(refs: nat, inCache: bool)

  type Memory = map<Handle, Status>

  // ---------- lists ----------

  predicate Distinct(s: seq<Handle>) {
    forall i, j :: 0 <= i < j < |s| ==> s[i] != s[j]
  }

  function Without(s: seq<Handle>, h: Handle): seq<Handle> {
    if s == [] then [] else if s[0] == h then Without(s[1..], h) else [s[0]] + Without(s[1..], h)
  }

  function Charges(s: seq<Handle>): nat { if s == [] then 0 else s[0].charge + Charges(s[1..]) }

  lemma {:induction false} WithoutFacts(s: seq<Handle>, h: Handle)
    requires Distinct(s)
    ensures Distinct(Without(s, h)) && (forall g :: g in Without(s, h) <==> g in s && g != h)
    ensures Charges(s) == Charges(Without(s, h)) + if h in s then h.charge else 0
    ensures h !in s ==> Without(s, h) == s
  {
    if s != [] {
      assert s == [s[0]] + s[1..];
      assert Distinct(s[1..]);
      assert s[0] !in s[1..];
      WithoutFacts(s[1..], h);
      var rest := Without(s[1..], h);
      if s[0] != h {
        assert Without(s, h) == [s[0]] + rest;
        assert Charges([s[0]] + rest) == s[0].charge + Charges(rest) by { assert ([s[0]] + rest)[1..] == rest; }
      }
    }
  }

  lemma {:induction false} ChargesAppend(s: seq<Handle>, h: Handle)
    ensures Charges(s + [h]) == Charges(s) + h.charge
  {
    if s != [] {
      ChargesAppend(s[1..], h);
      assert (s + [h])[1..] == s[1..] + [h];
    }
  }

  lemma DistinctAppend(s: seq<Handle>, h: Handle)
    requires Distinct(s) && h !in s
    ensures Distinct(s + [h])
  {
  }

  // ---------- the invariant, part by part ----------

  function CacheRef(st: Status): nat { if st.inCache then 1 else 0 }

  /** refs counts the outstanding handles and the cache's own reference; `off` is one about to be dropped. */
  ghost predicate RefsOk(m: Memory, held: multiset<Handle>, off: Option<Handle>) {
    && (forall h :: h in m ==> m[h].refs == held[h] + CacheRef(m[h]) + (if off == Some(h) then 1 else 0)
                               && m[h].refs > 0)
    && (forall h :: h in held ==> h in m)
  }

  /** Every cached entry is on exactly one list: on `lru` iff only the cache holds it. */
  ghost predicate ListsOk(m: Memory, lru: seq<Handle>, inUse: seq<Handle>) {
    && Distinct(lru) && Distinct(inUse)
    && (forall h :: h in lru <==> h in m && m[h].inCache && m[h].refs == 1)
    && (forall h :: h in inUse <==> h in m && m[h].inCache && m[h].refs >= 2)
  }

  /** No entry is freed twice, and every one ever made is alive or was given to its deleter. */
  ghost predicate LifeOk(m: Memory, deleted: seq<Handle>, made: set<Handle>, nextId: nat) {
    && Distinct(deleted)
    && (forall h :: h in made <==> h in m || h in deleted)
    && (forall h :: h in m ==> h !in deleted)
    && (forall h :: h in made ==> h.id < nextId)
  }

  ghost function InCache(m: Memory): set<Handle> { set h | h in m && m[h].inCache }

  // ---------- what each step does to each part ----------

  function SetRefs(m: Memory, h: Handle, refs: nat): Memory
    requires h in m
  {
    m[h := m[h].(refs := refs)]
  }

  lemma SameCached(m: Memory, h: Handle, refs: nat)
    requires h in m
    ensures InCache(SetRefs(m, h, refs)) == InCache(m)
  {
  }

  lemma RefCounts(m: Memory, held: multiset<Handle>, h: Handle)
    requires RefsOk(m, held, None) && h in m
    ensures RefsOk(SetRefs(m, h, m[h].refs + 1), held + multiset{h}, None)
  {
  }

  lemma RefLists(m: Memory, lru: seq<Handle>, inUse: seq<Handle>, h: Handle)
    requires ListsOk(m, lru, inUse) && h in m && m[h].refs > 0
    ensures var m' := SetRefs(m, h, m[h].refs + 1);
            if m[h].refs == 1 && m[h].inCache then
              ListsOk(m', Without(lru, h), inUse + [h])
              && Charges(Without(lru, h)) + Charges(inUse + [h]) == Charges(lru) + Charges(inUse)
            else ListsOk(m', lru, inUse) && Without(lru, h) == lru
  {
    WithoutFacts(lru, h);
    if m[h].refs == 1 && m[h].inCache {
      DistinctAppend(inUse, h);
      ChargesAppend(inUse, h);
    }
  }

  lemma SameLife(m: Memory, h: Handle, st: Status, deleted: seq<Handle>, made: set<Handle>, nextId: nat)
    requires LifeOk(m, deleted, made, nextId) && h in m
    ensures LifeOk(m[h := st], deleted, made, nextId)
  {
  }

  lemma DropCounts(m: Memory, held: multiset<Handle>, h: Handle)
    requires RefsOk(m, held, Some(h)) && h in m
    ensures m[h].refs > 1 ==> RefsOk(SetRefs(m, h, m[h].refs - 1), held, None)
    ensures m[h].refs == 1 ==> !m[h].inCache && h !in held && RefsOk(m - {h}, held, None)
  {
  }

  lemma DropLists(m: Memory, lru: seq<Handle>, inUse: seq<Handle>, h: Handle)
    requires ListsOk(m, lru, inUse) && h in m && m[h].refs > 1
    ensures var m' := SetRefs(m, h, m[h].refs - 1);
            if m[h].refs == 2 && m[h].inCache then
              ListsOk(m', lru + [h], Without(inUse, h))
              && Charges(lru + [h]) + Charges(Without(inUse, h)) == Charges(lru) + Charges(inUse)
            else ListsOk(m', lru, inUse)
  {
    if m[h].refs == 2 && m[h].inCache {
      WithoutFacts(inUse, h);
      DistinctAppend(lru, h);
      ChargesAppend(lru, h);
    }
  }

  lemma FreeLists(m: Memory, lru: seq<Handle>, inUse: seq<Handle>, h: Handle)
    requires ListsOk(m, lru, inUse) && h in m && !m[h].inCache
    ensures ListsOk(m - {h}, lru, inUse) && InCache(m - {h}) == InCache(m)
  {
  }

  lemma FreeLife(m: Memory, h: Handle, deleted: seq<Handle>, made: set<Handle>, nextId: nat)
    requires LifeOk(m, deleted, made, nextId) && h in m
    ensures LifeOk(m - {h}, deleted + [h], made, nextId)
  {
    DistinctAppend(deleted, h);
  }

  /** The entry leaves its list and the cache's reference becomes one to drop. */
  lemma LeaveLists(m: Memory, lru: seq<Handle>, inUse: seq<Handle>, h: Handle)
    requires ListsOk(m, lru, inUse) && h in m && m[h].inCache && m[h].refs > 0
    ensures ListsOk(m[h := m[h].(inCache := false)], Without(lru, h), Without(inUse, h))
    ensures Charges(lru) + Charges(inUse) == Charges(Without(lru, h)) + Charges(Without(inUse, h)) + h.charge
    ensures m[h].refs == 1 <==> h in lru
  {
    hide Without, Charges, Distinct;
    WithoutFacts(lru, h);
    WithoutFacts(inUse, h);
  }

  lemma LeaveCached(m: Memory, h: Handle)
    requires h in m
    ensures InCache(m[h := m[h].(inCache := false)]) == InCache(m) - {h}
  {
  }

  lemma LeaveCounts(m: Memory, held: multiset<Handle>, h: Handle)
    requires RefsOk(m, held, None) && h in m && m[h].inCache
    ensures RefsOk(m[h := m[h].(inCache := false)], held, Some(h))
  {
  }

  class LRUCache {
    const capacity: nat
    var usage: nat
    var lru: seq<Handle>
    var inUse: seq<Handle>
    const table: HandleTable
    var memory: Memory
    /** The next address. */
    var nextId: nat
    /** Handles the clients have not released yet. */
    ghost var held: multiset<Handle>
    /** The entries whose deleter has run, in order, and all entries ever made. */
    ghost var deleted: seq<Handle>
    ghost var made: set<Handle>

    /** Everything but the hash table. */
    ghost predicate Base(off: Option<Handle>)
      reads this
    {
      && RefsOk(memory, held, off) && ListsOk(memory, lru, inUse) && LifeOk(memory, deleted, made, nextId)
      && usage == Charges(lru) + Charges(inUse)
    }

    ghost predicate Valid()
      reads this, table
    {
      && Base(None) && table.Valid() && table.All() == InCache(memory)
      && (capacity == 0 ==> InCache(memory) == {})
    }

    constructor (capacity: nat)
      ensures Valid() && this.capacity == capacity && held == multiset{} && made == {} && deleted == []
      ensures fresh(table)
    {
      this.capacity := capacity;
      usage, lru, inUse, memory, nextId := 0, [], [], map[], 0;
      held, deleted, made := multiset{}, [], {};
      table := new HandleTable();
    }

    method Ref(h: Handle)
      requires Base(None) && h in memory
      modifies this`lru, this`inUse, this`memory, this`held
      ensures Base(None) && held == old(held) + multiset{h} && InCache(memory) == old(InCache(memory))
      ensures lru == if old(memory)[h].inCache then Without(old(lru), h) else old(lru)
      ensures memory == SetRefs(old(memory), h, old(memory)[h].refs + 1)
    {
      hide RefsOk, ListsOk, LifeOk, InCache, Without, Charges;
      CountedRefs(memory, held, h);
      RefCounts(memory, held, h);
      RefLists(memory, lru, inUse, h);
      SameCached(memory, h, memory[h].refs + 1);
      SameLife(memory, h, memory[h].(refs := memory[h].refs + 1), deleted, made, nextId);
      if memory[h].refs == 1 && memory[h].inCache {
        lru := Without(lru, h);
        inUse := inUse + [h];
      }
      memory := memory[h := memory[h].(refs := memory[h].refs + 1)];
      held := held + multiset{h};
    }

    /** Drops one reference, which the caller has already taken off its own count. */
    method Unref(h: Handle)
      requires Base(Some(h)) && h in memory
      modifies this`lru, this`inUse, this`memory, this`deleted
      ensures Base(None) && InCache(memory) == old(InCache(memory))
      ensures deleted == old(deleted) + if old(memory)[h].refs == 1 then [h] else []
      ensures lru == old(lru) + if old(memory)[h].inCache && old(memory)[h].refs == 2 then [h] else []
      ensures memory == if old(memory)[h].refs == 1 then old(memory) - {h}
                        else SetRefs(old(memory), h, old(memory)[h].refs - 1)
    {
      hide RefsOk, ListsOk, LifeOk, InCache, Without, Charges;
      ghost var refs0 := memory[h].refs;
      DropCounts(memory, held, h);
      if refs0 > 1 {
        DropLists(memory, lru, inUse, h);
        SameLife(memory, h, memory[h].(refs := refs0 - 1), deleted, made, nextId);
        SameCached(memory, h, refs0 - 1);
      } else {
        CountedRefs(memory, held, h);
        FreeLists(memory, lru, inUse, h);
        FreeLife(memory, h, deleted, made, nextId);
        assert memory[h := memory[h].(refs := 0)] - {h} == memory - {h};
      }
      var refs := memory[h].refs - 1;
      memory := memory[h := memory[h].(refs := refs)];
      if refs == 0 {
        deleted := deleted + [h];
        memory := memory - {h};
      } else if memory[h].inCache && refs == 1 {
        inUse := Without(inUse, h);
        lru := lru + [h];
      }
    }

    /** Completes the removal of an entry that has just left the hash table. */
    method FinishErase(e: Option<Handle>) returns (erased: bool)
      requires Base(None) && (e.Some? ==> e.value in memory && memory[e.value].inCache)
      modifies this`lru, this`inUse, this`memory, this`deleted, this`usage
      ensures Base(None) && erased == e.Some? && InCache(memory) == old(InCache(memory)) - Found(e)
      ensures e.Some? ==> lru == Without(old(lru), e.value) && usage == old(usage) - e.value.charge
      ensures e.None? ==> lru == old(lru) && usage == old(usage) && memory == old(memory) && deleted == old(deleted)
      ensures e.Some? ==> deleted == old(deleted) + if e.value in old(lru) then [e.value] else []
      ensures e.Some? ==> forall g :: g in old(memory) && g != e.value ==> g in memory && memory[g] == old(memory)[g]
    {
      hide RefsOk, ListsOk, LifeOk, InCache, Without, Charges;
      if e.Some? {
        var h := e.value;
        CountedRefs(memory, held, h);
        LeaveLists(memory, lru, inUse, h);
        LeaveCached(memory, h);
        LeaveCounts(memory, held, h);
        SameLife(memory, h, memory[h].(inCache := false), deleted, made, nextId);
        lru, inUse := Without(lru, h), Without(inUse, h);
        memory := memory[h := memory[h].(inCache := false)];
        usage := usage - h.charge;
        Unref(h);
      }
      erased := e.Some?;
    }
  
    method Lookup(key: Bytes, hash: nat) returns (r: Option<Handle>)
      requires Valid()
      modifies this`lru, this`inUse, this`memory, this`held
      ensures Valid() && held == old(held) + multiset(Found(r)) && InCache(memory) == old(InCache(memory))
      ensures Finds(table.list, key, hash, r)
      ensures lru == if r.Some? then Without(old(lru), r.value) else old(lru)
    {
      hide RefsOk, ListsOk, LifeOk, InCache, Without, Charges, Finds, Placed, Contents;
      r := table.Lookup(key, hash);
      if r.Some? {
        FoundCached(table.list, memory, key, hash, r);
        Ref(r.value);
      }
    }

    method Release(h: Handle)
      requires Valid() && h in held
      modifies this`lru, this`inUse, this`memory, this`held, this`deleted
      ensures Valid() && held == old(held) - multiset{h} && InCache(memory) == old(InCache(memory))
      ensures h in old(memory)
      // the last release of a cached entry makes it the newest of the idle ones
      ensures lru == old(lru) + if old(memory)[h].inCache && old(held)[h] == 1 then [h] else []
      // ... and the last release of one that has left the cache frees it
      ensures deleted == old(deleted) + if !old(memory)[h].inCache && old(held)[h] == 1 then [h] else []
    {
      hide RefsOk, ListsOk, LifeOk, InCache, Without, Charges, Finds, Placed, Contents;
      ReleaseCounts(memory, held, h);
      held := held - multiset{h};
      Unref(h);
    }

    method Erase(key: Bytes, hash: nat)
      requires Valid()
      modifies this`lru, this`inUse, this`memory, this`deleted, this`usage, table
      ensures Valid() && held == old(held)
      ensures exists r :: Finds(old(table.list), key, hash, r) && InCache(memory) == old(InCache(memory)) - Found(r)
                          && lru == Remaining(old(lru), r) && deleted == old(deleted) + FreedNow(old(lru), r)
    {
      hide RefsOk, ListsOk, LifeOk, InCache, Without, Charges, Finds, Placed, Contents;
      ghost var list := table.list;
      var r := table.Remove(key, hash);
      FoundCached(list, memory, key, hash, r);
      var erased := FinishErase(r);
    }

    /** Evicts the entry idle for longest. */
    method EvictOldest()
      requires Valid() && lru != []
      modifies this`lru, this`inUse, this`memory, this`deleted, this`usage, table
      ensures Valid() && held == old(held) && lru == old(lru)[1..] && usage == old(usage) - old(lru)[0].charge
      ensures deleted == old(deleted) + [old(lru)[0]] && InCache(memory) == old(InCache(memory)) - {old(lru)[0]}
    {
      var oldest := lru[0];
      OldestCached(memory, lru, inUse);
      hide RefsOk, ListsOk, LifeOk, InCache, Without, Charges, Finds, Placed, Contents;
      ghost var list := table.list;
      var r := table.Remove(oldest.key, oldest.hash);
      FindsExactly(list, oldest, r);
      var erased := FinishErase(r);
    }

    /** Evicts in order of release, no more than needed. */
    method EvictToCapacity() returns (ghost k: nat)
      requires Valid()
      modifies this`lru, this`inUse, this`memory, this`deleted, this`usage, table
      ensures Valid() && held == old(held) && (usage <= capacity || lru == [])
      ensures k <= |old(lru)| && lru == old(lru)[k..] && deleted == old(deleted) + old(lru)[..k]
      ensures k > 0 ==> usage + old(lru)[k - 1].charge > capacity
      ensures k == 0 ==> memory == old(memory)
      ensures InCache(memory) == old(InCache(memory)) - Members(old(lru)[..k])
    {
      hide RefsOk, ListsOk, LifeOk, InCache, Without, Charges, Finds, Placed, Contents;
      k := 0;
      while usage > capacity && lru != []
        invariant Valid() && held == old(held) && k <= |old(lru)| && lru == old(lru)[k..]
        invariant deleted == old(deleted) + old(lru)[..k]
        invariant k > 0 ==> usage + old(lru)[k - 1].charge > capacity
        invariant k == 0 ==> memory == old(memory)
        invariant InCache(memory) == old(InCache(memory)) - Members(old(lru)[..k])
        decreases |lru|
      {
        assert old(lru)[..k + 1] == old(lru)[..k] + [lru[0]];
        EvictOldest();
        k := k + 1;
      }
    }

    /**
     Caches a new entry in place of the one with its key, `displaced`, and then
     evicts the `k` entries idle for longest, no more than the capacity asks for.
     */
    method Insert(key: Bytes, hash: nat, charge: nat) returns (h: Handle, ghost displaced: Option<Handle>, ghost k: nat)
      requires Valid()
      modifies this, table
      ensures Valid() && held == old(held) + multiset{h} && made == old(made) + {h} && h !in old(made)
      ensures SameKey(h, key, hash) && h.charge == charge
      ensures if capacity > 0 then Finds(old(table.list), key, hash, displaced) else displaced == None
      ensures usage <= capacity || lru == []
      ensures var idle := Remaining(old(lru), displaced);
              && k <= |idle| && lru == idle[k..] && (k > 0 ==> usage + idle[k - 1].charge > capacity)
              && InCache(memory) == old(InCache(memory)) - Found(displaced) - Members(idle[..k]) + (if capacity > 0
                                                                                                    then {h} else {})
              && deleted == old(deleted) + FreedNow(old(lru), displaced) + idle[..k]
      ensures forall g :: g in InCache(memory) && g != h ==> !SameKey(g, key, hash)
      ensures capacity == 0 ==> memory == old(memory)[h := Status(1, false)] && lru == old(lru)
    {
      hide RefsOk, ListsOk, LifeOk, InCache, Without, Charges, Finds, Placed, Contents, Remaining, FreedNow, Members,
           Found;
      h := Handle(nextId, key, hash, charge);
      NewEntry(memory, held, lru, inUse, deleted, made, nextId, h);
      nextId := nextId + 1;
      made := made + {h};
      held := held + multiset{h};
      memory := memory[h := Status(1, false)];
      displaced := None;
      if capacity > 0 {
        displaced := CacheIt(h);
        StillCached(memory, lru, inUse, h);
      } else {
        NothingCached(memory, lru, inUse);
        NothingDisplaced(lru);
      }
      ghost var idle := lru;
      k := EvictToCapacity();
      if capacity > 0 {
        NewestStays(old(InCache(memory)) - Found(displaced), idle, k, h);
      }
    }

    /** The cache takes its own reference and gives up its entry with the same key. */
    method CacheIt(h: Handle) returns (ghost displaced: Option<Handle>)
      requires Base(None) && table.Valid() && table.All() == InCache(memory) && capacity > 0
      requires h in memory && memory[h] == Status(1, false)
      modifies this`lru, this`inUse, this`memory, this`deleted, this`usage, table
      ensures Valid() && h in memory && memory[h] == Status(2, true) && lru == Remaining(old(lru), displaced)
      ensures Finds(old(table.list), h.key, h.hash, displaced)
      ensures deleted == old(deleted) + FreedNow(old(lru), displaced)
      ensures InCache(memory) == old(InCache(memory)) - Found(displaced) + {h}
      ensures forall g :: g in InCache(memory) && g != h ==> !SameKey(g, h.key, h.hash)
    {
      hide RefsOk, ListsOk, LifeOk, InCache, Without, Charges, Finds, Placed, Contents;
      ghost var cached := InCache(memory);
      CacheEntry(memory, held, lru, inUse, h);
      SameLife(memory, h, Status(2, true), deleted, made, nextId);
      memory := memory[h := Status(2, true)];
      inUse := inUse + [h];
      usage := usage + h.charge;
      ghost var list := table.list;
      var previous := table.Insert(h);
      displaced := previous;
      Displaces(list, cached, memory, h, previous);
      Replaced(list, cached, h, previous);
      var erased := FinishErase(previous);
    }

    /** The destructor, reached with no cached entry in use: every idle entry is freed, oldest first. */
    method Destroy()
      requires Valid() && inUse == []
      modifies this`lru, this`inUse, this`memory, this`deleted, this`usage, table
      ensures Valid() && held == old(held) && deleted == old(deleted) + old(lru)
      ensures held == multiset{} ==> made == (set h | h in deleted) && Distinct(deleted)
    {
      hide RefsOk, ListsOk, LifeOk, InCache, Without, Charges, Finds, Placed, Contents;
      Prune();
      StillIdle(memory, held, lru, inUse);
      if held == multiset{} { AllFreed(memory, held, deleted, made, nextId); }
    }

    method Prune()
      requires Valid()
      modifies this`lru, this`inUse, this`memory, this`deleted, this`usage, table
      ensures Valid() && held == old(held) && lru == [] && deleted == old(deleted) + old(lru)
      ensures InCache(memory) == old(InCache(memory)) - Members(old(lru))
    {
      hide RefsOk, ListsOk, LifeOk, InCache, Without, Charges, Finds, Placed, Contents;
      ghost var k := 0;
      while lru != []
        invariant Valid() && held == old(held) && 0 <= k <= |old(lru)| && lru == old(lru)[k..]
        invariant deleted == old(deleted) + old(lru)[..k]
        invariant InCache(memory) == old(InCache(memory)) - Members(old(lru)[..k])
        decreases |lru|
      {
        assert old(lru)[..k + 1] == old(lru)[..k] + [lru[0]];
        EvictOldest();
        k := k + 1;
      }
      assert old(lru)[..k] == old(lru);
    }
  }

  /** With every handle released and nothing cached, every entry ever made has been freed, and once. */
  lemma AllFreed(m: Memory, held: multiset<Handle>, deleted: seq<Handle>, made: set<Handle>, nextId: nat)
    requires RefsOk(m, held, None) && LifeOk(m, deleted, made, nextId) && held == multiset{} && InCache(m) == {}
    ensures made == (set h | h in deleted) && Distinct(deleted)
  {
    NoneAlive(m, held);
  }

  lemma NoneAlive(m: Memory, held: multiset<Handle>)
    requires RefsOk(m, held, None) && held == multiset{} && InCache(m) == {}
    ensures m == map[]
  {
    if h :| h in m {
      NotCached(m, h);
    }
  }

  lemma NotCached(m: Memory, h: Handle)
    requires h in m && h !in InCache(m)
    ensures !m[h].inCache
  {
  }

  /** An entry that leaves the cache is freed right away if nobody holds it. */
  function FreedNow(lru: seq<Handle>, e: Option<Handle>): seq<Handle> {
    if e.Some? && e.value in lru then [e.value] else []
  }

  lemma NothingDisplaced(lru: seq<Handle>)
    ensures Remaining(lru, None) == lru && FreedNow(lru, None) == [] && Found(None) == {}
  {
  }

  /** The new entry is in use, so it is not among the evicted. */
  lemma NewestStays(others: set<Handle>, idle: seq<Handle>, k: nat, h: Handle)
    requires k <= |idle| && h !in idle
    ensures others + {h} - Members(idle[..k]) == others - Members(idle[..k]) + {h}
  {
  }

  /** The idle list without the entry displaced by an insert, if it was idle. */
  function Remaining(lru: seq<Handle>, displaced: Option<Handle>): seq<Handle> {
    if displaced.Some? then Without(lru, displaced.value) else lru
  }

  lemma FoundCached(b: Buckets, m: Memory, key: Bytes, hash: nat, r: Option<Handle>)
    requires Finds(b, key, hash, r) && Contents(b) == InCache(m)
    ensures r.Some? ==> r.value in m && m[r.value].inCache
  {
  }

  lemma ReleaseCounts(m: Memory, held: multiset<Handle>, h: Handle)
    requires RefsOk(m, held, None) && h in held
    ensures h in m && RefsOk(m, held - multiset{h}, Some(h)) && m[h].refs == held[h] + CacheRef(m[h])
  {
  }

  lemma OldestCached(m: Memory, lru: seq<Handle>, inUse: seq<Handle>)
    requires ListsOk(m, lru, inUse) && lru != []
    ensures lru[0] in InCache(m) && lru[0] in m && m[lru[0]].inCache && Without(lru, lru[0]) == lru[1..]
    ensures lru[0] in lru
  {
    assert lru[0] in lru && lru[0] !in lru[1..];
    assert Distinct(lru[1..]);
    WithoutFacts(lru[1..], lru[0]);
  }

  /** Keys are unique in the table, so looking for an entry's key finds the entry. */
  lemma FindsExactly(b: Buckets, h: Handle, r: Option<Handle>)
    requires Placed(b) && h in Contents(b) && Finds(b, h.key, h.hash, r)
    ensures r == Some(h)
  {
    UniqueKey(b, h, r.value);
  }

  lemma UniqueKey(b: Buckets, g: Handle, h: Handle)
    requires Placed(b) && g in Contents(b) && h in Contents(b) && SameKey(g, h.key, h.hash)
    ensures g == h
  {
    var i :| 0 <= i < |b| && g in b[i];
    var j :| 0 <= j < |b| && h in b[j];
    assert i == j;
    var p :| 0 <= p < |b[i]| && b[i][p] == g;
    var q :| 0 <= q < |b[i]| && b[i][q] == h;
    assert p == q;
  }

  lemma NewEntry(m: Memory, held: multiset<Handle>, lru: seq<Handle>, inUse: seq<Handle>, deleted: seq<Handle>,
                 made: set<Handle>, nextId: nat, h: Handle)
    requires RefsOk(m, held, None) && ListsOk(m, lru, inUse) && LifeOk(m, deleted, made, nextId) && h.id == nextId
    ensures h !in made && h !in m && h !in held
    ensures var m' := m[h := Status(1, false)];
            && RefsOk(m', held + multiset{h}, None) && ListsOk(m', lru, inUse)
            && LifeOk(m', deleted, made + {h}, nextId + 1)
            && InCache(m') == InCache(m)
  {
  }

  lemma CacheEntry(m: Memory, held: multiset<Handle>, lru: seq<Handle>, inUse: seq<Handle>, h: Handle)
    requires RefsOk(m, held, None) && ListsOk(m, lru, inUse) && h in m && m[h] == Status(1, false)
    ensures var m' := m[h := Status(2, true)];
            && RefsOk(m', held, None) && ListsOk(m', lru, inUse + [h]) && InCache(m') == InCache(m) + {h}
    ensures Charges(inUse + [h]) == Charges(inUse) + h.charge && h !in InCache(m)
  {
    DistinctAppend(inUse, h);
    ChargesAppend(inUse, h);
  }

  lemma Displaces(b: Buckets, cached: set<Handle>, m: Memory, h: Handle, previous: Option<Handle>)
    requires Finds(b, h.key, h.hash, previous) && Contents(b) == cached && InCache(m) == cached + {h} && h !in cached
    ensures previous.Some? ==> previous.value in m && m[previous.value].inCache && previous.value != h
    ensures cached - Found(previous) + {h} == InCache(m) - Found(previous)
  {
  }

  lemma Replaced(b: Buckets, cached: set<Handle>, h: Handle, previous: Option<Handle>)
    requires Placed(b) && Finds(b, h.key, h.hash, previous) && Contents(b) == cached
    ensures forall g :: g in cached - Found(previous) ==> !SameKey(g, h.key, h.hash)
  {
    forall g | g in cached - Found(previous) ensures !SameKey(g, h.key, h.hash) {
      if SameKey(g, h.key, h.hash) { UniqueKey(b, g, previous.value); }
    }
  }

  /** An entry in use is not idle, so it is not evicted. */
  lemma StillCached(m: Memory, lru: seq<Handle>, inUse: seq<Handle>, h: Handle)
    requires ListsOk(m, lru, inUse) && h in m && m[h] == Status(2, true)
    ensures h !in lru && h in InCache(m)
  {
  }

  lemma ListedCached(m: Memory, lru: seq<Handle>, inUse: seq<Handle>, h: Handle)
    requires ListsOk(m, lru, inUse) && (h in lru || h in inUse)
    ensures h in InCache(m)
  {
  }

  /** With no handles out and no idle entry nothing is cached. */
  lemma StillIdle(m: Memory, held: multiset<Handle>, lru: seq<Handle>, inUse: seq<Handle>)
    requires RefsOk(m, held, None) && ListsOk(m, lru, inUse) && lru == []
    ensures held == multiset{} ==> InCache(m) == {}
  {
  }

  lemma NothingCached(m: Memory, lru: seq<Handle>, inUse: seq<Handle>)
    requires ListsOk(m, lru, inUse) && InCache(m) == {}
    ensures lru == [] && inUse == [] && Charges(lru) + Charges(inUse) == 0
  {
    hide ListsOk, InCache;
    if lru != [] { ListedCached(m, lru, inUse, lru[0]); }
    if inUse != [] { ListedCached(m, lru, inUse, inUse[0]); }
  }

  lemma CountedRefs(m: Memory, held: multiset<Handle>, h: Handle)
    requires h in m && (RefsOk(m, held, None) || RefsOk(m, held, Some(h)))
    ensures m[h].refs > 0
  {
  }
}
