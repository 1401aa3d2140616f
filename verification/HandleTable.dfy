/** The cache's hash table (util/cache.cc): chained buckets that double as the table fills. */
module HandleTables {
  import opened Wrappers
  import opened Keys

  /** The part of an LRUHandle that never changes; `id` is its address. */
  datatype Handle = Handle(id: nat, key: Bytes, hash: nat, charge: nat)

  predicate SameKey(h: Handle, key: Bytes, hash: nat) { h.hash == hash && h.key == key }

  /** A bucket per remainder of the hash; the source masks with length - 1, lengths being powers of two. */
  type Buckets = seq<seq<Handle>>

  predicate PowerOfTwo(n: nat)
    decreases n
  {
    n == 1 || (n > 1 && n % 2 == 0 && PowerOfTwo(n / 2))
  }

  function Members(bucket: seq<Handle>): set<Handle> { set h | h in bucket }

  function Contents(b: Buckets): set<Handle> { set i, h | 0 <= i < |b| && h in b[i] :: h }

  function Total(b: Buckets): nat { if b == [] then 0 else Total(b[..|b| - 1]) + |b[|b| - 1]| }

  /** Every entry is in the bucket of its hash, and no two have the same key. */
  ghost predicate Placed(b: Buckets) {
    && (forall i, h :: 0 <= i < |b| && h in b[i] ==> h.hash % |b| == i)
    && (forall i, j, k :: 0 <= i < |b| && 0 <= j < k < |b[i]| ==> !SameKey(b[i][j], b[i][k].key, b[i][k].hash))
  }

  lemma {:induction false} TotalUpdate(b: Buckets, i: nat, bucket: seq<Handle>)
    requires i < |b|
    ensures Total(b[i := bucket]) == Total(b) - |b[i]| + |bucket|
  {
    var n := |b| - 1;
    if i == n {
      assert b[i := bucket][..n] == b[..n];
    } else {
      TotalUpdate(b[..n], i, bucket);
      assert b[i := bucket][..n] == b[..n][i := bucket];
    }
  }

  /** What a search for this key finds. */
  ghost predicate Finds(b: Buckets, key: Bytes, hash: nat, r: Option<Handle>) {
    match r
    case Some(h) => h in Contents(b) && SameKey(h, key, hash)
    case None => forall h :: h in Contents(b) ==> !SameKey(h, key, hash)
  }

  function Found(r: Option<Handle>): set<Handle> { if r.Some? then {r.value} else {} }

  class HandleTable {
    var length: nat
    var elems: nat
    var list: Buckets

    ghost predicate Valid()
      reads this
    {
      && |list| == length && length >= 4 && PowerOfTwo(length)
      && Placed(list) && elems == Total(list)
    }

    ghost function All(): set<Handle>
      reads this
    {
      Contents(list)
    }

    constructor ()
      ensures Valid() && All() == {}
    {
      length, elems, list := 4, 0, [[], [], [], []];
      new;
      hide Total;
      assert PowerOfTwo(4) by { assert PowerOfTwo(2); }
      assert Total([[], [], [], []]) == 0 by { FourEmpty(); }
    }

    /** The place in its bucket where a key is, the bucket's end if it is not there. */
    method FindPointer(key: Bytes, hash: nat) returns (i: nat, p: nat)
      requires Valid()
      ensures i == hash % length && p <= |list[i]|
      ensures forall j :: 0 <= j < p ==> !SameKey(list[i][j], key, hash)
      ensures p < |list[i]| ==> SameKey(list[i][p], key, hash)
    {
      i := hash % length;
      p := 0;
      while p < |list[i]| && (list[i][p].hash != hash || key != list[i][p].key)
        invariant p <= |list[i]| && forall j :: 0 <= j < p ==> !SameKey(list[i][j], key, hash)
      {
        p := p + 1;
      }
    }

    method Lookup(key: Bytes, hash: nat) returns (r: Option<Handle>)
      requires Valid()
      ensures Finds(list, key, hash, r)
    {
      var i, p := FindPointer(key, hash);
      r := if p < |list[i]| then Some(list[i][p]) else None;
      SearchIsLocal(list, key, hash, p);
    }

    /** Replaces the entry with the same key, which is returned, or adds a new one. */
    method Insert(h: Handle) returns (old_: Option<Handle>)
      requires Valid()
      modifies this
      ensures Valid() && Finds(old(list), h.key, h.hash, old_)
      ensures All() == old(All()) - Found(old_) + {h}
    {
      hide Placed, Total, Contents;
      var i, p := FindPointer(h.key, h.hash);
      SearchIsLocal(list, h.key, h.hash, p);
      ghost var before := list;
      TotalUpdate(list, i, if p < |list[i]| then list[i][..p] + [h] + list[i][p + 1..] else list[i] + [h]);
      if p < |list[i]| {
        old_ := Some(list[i][p]);
        ReplacePlaced(list, i, p, h);
        list := list[i := list[i][..p] + [h] + list[i][p + 1..]];
      } else {
        old_ := None;
        AddPlaced(list, i, h);
        list := list[i := list[i] + [h]];
        elems := elems + 1;
        if elems > length {
          Resize();
        }
      }
    }

    method Remove(key: Bytes, hash: nat) returns (r: Option<Handle>)
      requires Valid()
      modifies this
      ensures Valid() && Finds(old(list), key, hash, r)
      ensures All() == old(All()) - Found(r)
    {
      hide Placed, Total, Contents;
      var i, p := FindPointer(key, hash);
      SearchIsLocal(list, key, hash, p);
      r := None;
      if p < |list[i]| {
        r := Some(list[i][p]);
        TotalUpdate(list, i, list[i][..p] + list[i][p + 1..]);
        RemovePlaced(list, i, p);
        list := list[i := list[i][..p] + list[i][p + 1..]];
        elems := elems - 1;
      }
    }

    /** Moves every entry into a table at least as long as there are entries. */
    method Resize()
      requires |list| == length && length >= 4 && PowerOfTwo(length) && Placed(list) && elems == Total(list)
      modifies this
      ensures Valid() && elems <= length && All() == old(All())
    {
      hide Placed, Total, Contents;
      var newLength: nat := 4;
      assert PowerOfTwo(4) by { assert PowerOfTwo(2); }
      while newLength < elems
        invariant newLength >= 4 && PowerOfTwo(newLength)
      {
        newLength := newLength * 2;
      }
      var newList := NoBuckets(newLength);
      NothingHeld(newLength, list);
      Rehash(newLength, newList);
    }

    method Rehash(newLength: nat, empty: Buckets)
      requires |list| == length && elems == Total(list) && Placed(list)
      requires newLength >= 4 && PowerOfTwo(newLength) && |empty| == newLength && Placed(empty)
      requires Total(empty) == Total(list[..0])
      requires Contents(empty) == Contents(list[..0])
      modifies this
      ensures Valid() && length == newLength && elems == old(elems) && All() == old(All())
    {
      hide Placed, Total, Contents;
      var source, newList := list, empty;
      var i := 0;
      while i < |source|
        invariant 0 <= i <= |source| && |newList| == newLength && Placed(newList)
        invariant Total(newList) == Total(source[..i]) && elems == old(elems)
        invariant Contents(newList) == Contents(source[..i])
      {
        newList := MoveBucket(source, i, newList);
        HoldsNext(source, i);
        i := i + 1;
      }
      assert source[..i] == source;
      list := newList;
      length := newLength;
    }
  }

  /** Moves the entries of one old bucket, each to the front of its new one. */
  method MoveBucket(source: Buckets, i: nat, newList: Buckets) returns (newList': Buckets)
    requires Placed(source) && i < |source| && |newList| > 0 && Placed(newList)
    requires Contents(newList) == Contents(source[..i])
    ensures |newList'| == |newList| && Placed(newList') && Total(newList') == Total(newList) + |source[i]|
    ensures Contents(newList') == Contents(source[..i]) + Members(source[i])
  {
    hide Placed, Total, Contents;
    var bucket := source[i];
    newList' := newList;
    var j := 0;
    while j < |bucket|
      invariant 0 <= j <= |bucket| && |newList'| == |newList| && Placed(newList')
      invariant Total(newList') == Total(newList) + j
      invariant Contents(newList') == Contents(source[..i]) + Members(bucket[..j])
    {
      var h := bucket[j];
      var k := h.hash % |newList'|;
      FreshInOld(source, i, j);
      TotalUpdate(newList', k, [h] + newList'[k]);
      AddPlaced(newList', k, h);
      newList' := newList'[k := [h] + newList'[k]];
      OneMore(bucket, j);
      j := j + 1;
    }
    assert bucket[..j] == bucket;
  }

  lemma OneMore(bucket: seq<Handle>, j: nat)
    requires j < |bucket|
    ensures Members(bucket[..j + 1]) == Members(bucket[..j]) + {bucket[j]}
  {
    assert bucket[..j + 1] == bucket[..j] + [bucket[j]];
  }

  function NoBuckets(n: nat): Buckets { seq(n, _ => []) }

  lemma NothingHeld(n: nat, b: Buckets)
    requires n > 0
    ensures |NoBuckets(n)| == n && Placed(NoBuckets(n)) && Total(NoBuckets(n)) == 0 == Total(b[..0])
    ensures Contents(NoBuckets(n)) == Contents(b[..0]) == {}
  {
    EmptyTotal(n);
  }

  lemma FourEmpty()
    ensures Total([[], [], [], []]) == 0
  {
    EmptyTotal(4);
    var b: Buckets := [[], [], [], []];
    assert b == NoBuckets(4);
  }

  lemma {:induction false} EmptyTotal(n: nat)
    ensures Total(NoBuckets(n)) == 0
  {
    if n > 0 {
      EmptyTotal(n - 1);
      assert NoBuckets(n)[..n - 1] == NoBuckets(n - 1);
    }
  }

  /** Only the bucket of its hash can hold a key. */
  lemma SearchIsLocal(b: Buckets, key: Bytes, hash: nat, p: nat)
    requires Placed(b) && |b| > 0 && p <= |b[hash % |b|]|
    requires forall j :: 0 <= j < p ==> !SameKey(b[hash % |b|][j], key, hash)
    requires p < |b[hash % |b|]| ==> SameKey(b[hash % |b|][p], key, hash)
    ensures Finds(b, key, hash, if p < |b[hash % |b|]| then Some(b[hash % |b|][p]) else None)
  {
    var i := hash % |b|;
    if p < |b[i]| {
      assert b[i][p] in b[i];
    } else {
      forall h | h in Contents(b) ensures !SameKey(h, key, hash) {
        var k :| 0 <= k < |b| && h in b[k];
      }
    }
  }

  lemma ReplacePlaced(b: Buckets, i: nat, p: nat, h: Handle)
    requires Placed(b) && |b| > 0 && i == h.hash % |b| && p < |b[i]| && SameKey(b[i][p], h.key, h.hash)
    ensures var b' := b[i := b[i][..p] + [h] + b[i][p + 1..]];
            Placed(b') && Contents(b') == Contents(b) - {b[i][p]} + {h}
  {
    var bucket := b[i][..p] + [h] + b[i][p + 1..];
    forall j, k | 0 <= j < k < |bucket| ensures !SameKey(bucket[j], bucket[k].key, bucket[k].hash) {
      assert SameKey(bucket[j], b[i][j].key, b[i][j].hash) && SameKey(bucket[k], b[i][k].key, b[i][k].hash);
    }
    BucketPlaced(b, i, bucket);
    BucketChange(b, i, bucket);
    WithoutPlace(b, i, p);
    assert Members(bucket) == Members(b[i][..p] + b[i][p + 1..]) + {h} by {
      assert bucket[p] == h;
      assert forall g :: g in bucket <==> g in b[i][..p] || g == h || g in b[i][p + 1..];
    }
  }

  /** The other entries of a bucket: its entries are all different. */
  lemma WithoutPlace(b: Buckets, i: nat, p: nat)
    requires Placed(b) && i < |b| && p < |b[i]|
    ensures Members(b[i][..p] + b[i][p + 1..]) == Members(b[i]) - {b[i][p]}
    ensures b[i][p] in Members(b[i]) && Members(b[i]) <= Contents(b)
  {
    var rest := b[i][..p] + b[i][p + 1..];
    forall g ensures g in rest <==> g in b[i] && g != b[i][p] {
      if g in b[i] && g != b[i][p] {
        var q :| 0 <= q < |b[i]| && b[i][q] == g;
        assert rest[if q < p then q else q - 1] == g;
      }
      if g in rest {
        var q :| 0 <= q < |rest| && rest[q] == g;
        assert b[i][if q < p then q else q + 1] == g;
      }
    }
  }

  /** With one bucket replaced, the table holds the new bucket and what the others hold. */
  lemma BucketChange(b: Buckets, i: nat, bucket: seq<Handle>)
    requires Placed(b) && i < |b|
    ensures Contents(b[i := bucket]) == Contents(b) - Members(b[i]) + Members(bucket)
    ensures Members(b[i]) <= Contents(b)
  {
    var b' := b[i := bucket];
    forall g: Handle ensures g in Contents(b') <==> g in Contents(b) - Members(b[i]) + Members(bucket) {
      if g in bucket { assert g in b'[i]; }
      if g in Contents(b) && g !in b[i] {
        var k :| 0 <= k < |b| && g in b[k];
        assert g in b'[k];
      }
      if g in Contents(b') && g !in bucket {
        var k :| 0 <= k < |b'| && g in b'[k];
        assert g in b[k] && g.hash % |b| == k;
      }
    }
  }

  /** A bucket may be replaced by any one that is in order for its place. */
  lemma BucketPlaced(b: Buckets, i: nat, bucket: seq<Handle>)
    requires Placed(b) && i < |b| && (forall h :: h in bucket ==> h.hash % |b| == i)
    requires forall j, k :: 0 <= j < k < |bucket| ==> !SameKey(bucket[j], bucket[k].key, bucket[k].hash)
    ensures Placed(b[i := bucket])
  {
    var b' := b[i := bucket];
    forall l, h: Handle | 0 <= l < |b'| && h in b'[l] ensures h.hash % |b'| == l {
      if l != i { assert h in b[l]; }
    }
  }

  /** Adding an entry of a new key, at the end of its bucket or at the front. */
  lemma AddPlaced(b: Buckets, i: nat, h: Handle)
    requires Placed(b) && |b| > 0 && i == h.hash % |b| && forall g :: g in Contents(b) ==> !SameKey(g, h.key, h.hash)
    ensures Placed(b[i := b[i] + [h]]) && Contents(b[i := b[i] + [h]]) == Contents(b) + {h}
    ensures Placed(b[i := [h] + b[i]]) && Contents(b[i := [h] + b[i]]) == Contents(b) + {h}
  {
    forall j | 0 <= j < |b[i]| ensures !SameKey(b[i][j], h.key, h.hash) {
      assert b[i][j] in b[i];
    }
    BucketPlaced(b, i, b[i] + [h]);
    BucketPlaced(b, i, [h] + b[i]);
    BucketChange(b, i, b[i] + [h]);
    BucketChange(b, i, [h] + b[i]);
    assert Members(b[i] + [h]) == Members(b[i]) + {h} && Members([h] + b[i]) == Members(b[i]) + {h};
  }

  lemma RemovePlaced(b: Buckets, i: nat, p: nat)
    requires Placed(b) && i < |b| && p < |b[i]|
    ensures var b' := b[i := b[i][..p] + b[i][p + 1..]];
            Placed(b') && Contents(b') == Contents(b) - {b[i][p]}
  {
    var bucket := b[i][..p] + b[i][p + 1..];
    forall j | 0 <= j < |bucket| ensures bucket[j] == b[i][if j < p then j else j + 1] && bucket[j] in b[i] {}
    BucketPlaced(b, i, bucket);
    BucketChange(b, i, bucket);
    WithoutPlace(b, i, p);
  }

  lemma HoldsNext(b: Buckets, i: nat)
    requires i < |b|
    ensures Contents(b[..i + 1]) == Contents(b[..i]) + Members(b[i])
    ensures Total(b[..i + 1]) == Total(b[..i]) + |b[i]|
  {
    assert b[..i + 1][..i] == b[..i];
    forall g: Handle ensures g in Contents(b[..i + 1]) <==> g in Contents(b[..i]) + Members(b[i]) {
      if g in Contents(b[..i]) {
        var k :| 0 <= k < i && g in b[..i][k];
        assert g in b[..i + 1][k];
      }
      if g in b[i] { assert g in b[..i + 1][i]; }
      if g in Contents(b[..i + 1]) && g !in b[i] {
        var k :| 0 <= k < i + 1 && g in b[..i + 1][k];
        assert g in b[..i][k];
      }
    }
  }

  /** The entry about to be moved has another key than all moved so far. */
  lemma FreshInOld(b: Buckets, i: nat, j: nat)
    requires Placed(b) && i < |b| && j < |b[i]|
    ensures forall g :: g in Contents(b[..i]) + Members(b[i][..j]) ==> !SameKey(g, b[i][j].key, b[i][j].hash)
  {
    assert b[i][j] in b[i];
    forall g | g in Contents(b[..i]) + Members(b[i][..j]) ensures !SameKey(g, b[i][j].key, b[i][j].hash) {
      if g in b[i][..j] {
        var q :| 0 <= q < j && b[i][..j][q] == g;
        assert b[i][q] == g;
      } else {
        var k :| 0 <= k < i && g in b[..i][k];
        assert g in b[k];
      }
    }
  }
}
