/**
 Byte strings, the bytewise comparator and internal keys
 (util/comparator.cc, db/dbformat.h, db/dbformat.cc).

 The storage engine only ever asks the user comparator how two keys compare.
 The modules above the byte formats therefore use a user key's rank in that
 order, a `real`. `RankOrder` shows that nothing is lost: ranks compare
 exactly as the bytewise comparator compares the strings, and distinct
 strings have distinct ranks.
 */
module Keys {

  type Byte = x: int | 0 <= x < 256
  type Bytes = seq<Byte>

  /** Bytewise order, shorter string first when one is a prefix of the other. */
  function Compare(a: Bytes, b: Bytes): int {
    if a == [] && b == [] then 0
    else if a == [] then -1
    else if b == [] then 1
    else if a[0] < b[0] then -1
    else if a[0] > b[0] then 1
    else Compare(a[1..], b[1..])
  }

  /** How many leading bytes two strings have in common. */
  function CommonPrefix(a: Bytes, b: Bytes): (n: nat)
    ensures n <= |a| && n <= |b| && a[..n] == b[..n]
    ensures n < |a| && n < |b| ==> a[n] != b[n]
  {
    if a == [] || b == [] || a[0] != b[0] then 0
    else
      var m := CommonPrefix(a[1..], b[1..]);
      assert a[..m + 1] == [a[0]] + a[1..][..m] && b[..m + 1] == [b[0]] + b[1..][..m];
      m + 1
  }

  lemma {:induction false} CommonPrefixIs(a: Bytes, b: Bytes, n: nat)
    requires n <= |a| && n <= |b| && a[..n] == b[..n]
    requires n < |a| && n < |b| ==> a[n] != b[n]
    ensures CommonPrefix(a, b) == n
  {
    if n > 0 {
      assert a[0] == a[..n][0] == b[..n][0] == b[0];
      assert a[1..][..n - 1] == a[..n][1..] && b[1..][..n - 1] == b[..n][1..];
      CommonPrefixIs(a[1..], b[1..], n - 1);
    }
  }

  type UserKey = real

  /** Position of a byte string in the bytewise order. */
  function Rank(s: Bytes): (r: UserKey)
    ensures 0.0 <= r < 1.0
    ensures r == 0.0 <==> s == []
  {
    if s == [] then 0.0 else (s[0] as real + 1.0 + Rank(s[1..])) / 257.0
  }

  lemma {:induction false} RankOrder(a: Bytes, b: Bytes)
    ensures Compare(a, b) < 0 <==> Rank(a) < Rank(b)
    ensures Compare(a, b) > 0 <==> Rank(a) > Rank(b)
    ensures Compare(a, b) == 0 <==> a == b
    ensures Rank(a) == Rank(b) <==> a == b
  {
    if a != [] && b != [] {
      RankOrder(a[1..], b[1..]);
      assert a == [a[0]] + a[1..] && b == [b[0]] + b[1..];
    }
  }

  /** Sequence numbers occupy the upper 56 bits of the 64-bit tag. */
  const MAX_SEQUENCE_NUMBER: nat := 0x100_0000_0000_0000 - 1

  datatype Op = Delete | Put(value: Bytes)

  /** kTypeDeletion = 0, kTypeValue = 1; seeks use the larger one. */
  function TypeTag(op: Op): nat { if op.Put? then 1 else 0 }

  const TYPE_FOR_SEEK: nat := 1

  /** User key plus the packed (sequence << 8) | type tag. */
  datatype InternalKey = InternalKey(user: UserKey, tag: nat)

  function Pack(seqno: nat, typeTag: nat): nat { seqno * 256 + typeTag }

  function LookupKey(user: UserKey, snapshot: nat): InternalKey {
    InternalKey(user, Pack(snapshot, TYPE_FOR_SEEK))
  }

  /** Increasing user key, then decreasing tag. */
  predicate Less(a: InternalKey, b: InternalKey) {
    a.user < b.user || (a.user == b.user && a.tag > b.tag)
  }

  datatype Entry = Entry(key: UserKey, seqno: nat, op: Op) {
    function Ikey(): InternalKey { InternalKey(key, Pack(seqno, TypeTag(op))) }
  }

  predicate Sorted(es: seq<Entry>) {
    forall i, j :: 0 <= i < j < |es| ==> Less(es[i].Ikey(), es[j].Ikey())
  }

  /** A seek to a lookup key skips exactly the too-new versions of that user key. */
  lemma LookupKeyBound(e: Entry, user: UserKey, snapshot: nat)
    ensures Less(e.Ikey(), LookupKey(user, snapshot)) <==>
            e.key < user || (e.key == user && e.seqno > snapshot)
  {
  }
}
