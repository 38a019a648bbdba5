/**
 What a chained hash table holds, as values: a bucket's chain of entries, arrays of chains, the
 finite map they stand for, and the listing of all entries bucket by bucket. The hash function is
 arbitrary.
 */
module Chains {
  import opened Common
  import opened Arith

  /** The contents of a bucket's chain, head first. */
  datatype Chain<K, V> = End | Link(key: K, val: V, next: Chain<K, V>)

  function Get<K(==), V>(c: Chain<K, V>, k: K): Option<V> {
    if c.End? then None else if c.key == k then Some(c.val) else Get(c.next, k)
  }

  function Length<K, V>(c: Chain<K, V>): nat {
    if c.End? then 0 else 1 + Length(c.next)
  }

  /** The entries of a chain in order. */
  function Entries<K, V>(c: Chain<K, V>): seq<(K, V)> {
    if c.End? then [] else [(c.key, c.val)] + Entries(c.next)
  }

  ghost predicate Unique<K, V>(c: Chain<K, V>) {
    c.Link? ==> Get(c.next, c.key) == None && Unique(c.next)
  }

  /** Every key of the chain hashes to bucket `b` of `n`. */
  ghost predicate Belongs<K(!new), V>(c: Chain<K, V>, hash: K -> nat, n: nat, b: nat)
    requires n >= 1
  {
    forall k :: Get(c, k).Some? ==> Slot(hash, k, n) == b
  }

  /** Index of a key: its hash masked with the size less one. */
  function Slot<K>(hash: K -> nat, k: K, n: nat): nat
    requires n >= 1
  {
    And(hash(k), n - 1)
  }

  lemma {:induction false} SlotInRange<K>(hash: K -> nat, k: K, n: nat)
    requires PowerOfTwo(n)
    ensures Slot(hash, k, n) < n
  {
    AndMask(hash(k), n);
  }

  /** The value of a key in a bucket array. */
  ghost function Find<K, V>(t: seq<Chain<K, V>>, hash: K -> nat, k: K): Option<V> {
    if |t| == 0 || Slot(hash, k, |t|) >= |t| then None else Get(t[Slot(hash, k, |t|)], k)
  }

  ghost function Total<K, V>(t: seq<Chain<K, V>>): nat {
    if t == [] then 0 else Length(t[0]) + Total(t[1..])
  }

  lemma {:induction false} TotalSplit<K, V>(a: seq<Chain<K, V>>, b: seq<Chain<K, V>>)
    ensures Total(a + b) == Total(a) + Total(b)
  {
    if a == [] {
      assert a + b == b;
    } else {
      assert (a + b)[1..] == a[1..] + b;
      TotalSplit(a[1..], b);
    }
  }

  lemma {:induction false} TotalUpdate<K, V>(t: seq<Chain<K, V>>, i: nat, c: Chain<K, V>)
    requires i < |t|
    ensures Total(t[i := c]) + Length(t[i]) == Total(t) + Length(c)
  {
    assert t == t[..i] + ([t[i]] + t[i + 1..]);
    assert t[i := c] == t[..i] + ([c] + t[i + 1..]);
    TotalSplit(t[..i], [t[i]] + t[i + 1..]);
    TotalSplit(t[..i], [c] + t[i + 1..]);
    assert ([t[i]] + t[i + 1..])[1..] == t[i + 1..] == ([c] + t[i + 1..])[1..];
  }

  /** Every chain is duplicate-free and holds only keys of its bucket. */
  ghost predicate WellPlaced<K(!new), V>(t: seq<Chain<K, V>>, hash: K -> nat) {
    forall b :: 0 <= b < |t| ==> Unique(t[b]) && Belongs(t[b], hash, |t|, b)
  }

  /** The bucket array stands for the finite map `m`. */
  ghost predicate Represents<K(!new), V>(t: seq<Chain<K, V>>, hash: K -> nat, m: map<K, V>) {
    forall k :: Find(t, hash, k) == if k in m then Some(m[k]) else None
  }

  lemma {:induction false} LinkPlaced<K(!new), V>(t: seq<Chain<K, V>>, hash: K -> nat, k: K, v: V)
    requires PowerOfTwo(|t|) && WellPlaced(t, hash) && Find(t, hash, k) == None
    ensures Slot(hash, k, |t|) < |t|
    ensures var b := Slot(hash, k, |t|); var t' := t[b := Link(k, v, t[b])];
            && WellPlaced(t', hash)
            && (forall x :: Find(t', hash, x) == if x == k then Some(v) else Find(t, hash, x))
            && Total(t') == Total(t) + 1
  {
    SlotInRange(hash, k, |t|);
    var b := Slot(hash, k, |t|);
    var t' := t[b := Link(k, v, t[b])];
    TotalUpdate(t, b, t'[b]);
    assert Belongs(t'[b], hash, |t|, b) by {
      assert Belongs(t[b], hash, |t|, b);
    }
  }

  // ---------- Rehashing ----------

  /** The value of `k` among the entries still to be moved: the chain suffix `he` of bucket `i`
      and all later buckets. */
  ghost function Rest<K, V>(t: seq<Chain<K, V>>, hash: K -> nat, i: nat, he: Chain<K, V>, k: K): Option<V> {
    if |t| == 0 || Slot(hash, k, |t|) >= |t| || Slot(hash, k, |t|) < i then None
    else if Slot(hash, k, |t|) == i then Get(he, k)
    else Get(t[Slot(hash, k, |t|)], k)
  }

  ghost function Left<K, V>(t: seq<Chain<K, V>>, i: nat, he: Chain<K, V>): nat {
    Length(he) + if i < |t| then Total(t[i + 1..]) else 0
  }

  /** The new array `n` and the rest of the old array `t` share the old contents between them. */
  ghost predicate Moving<K(!new), V>(t: seq<Chain<K, V>>, hash: K -> nat, n: seq<Chain<K, V>>, i: nat, he: Chain<K, V>) {
    && WellPlaced(n, hash) && PowerOfTwo(|n|)
    && Unique(he) && (he.Link? ==> i < |t| && Belongs(he, hash, |t|, i))
    && (forall k :: Find(n, hash, k).Some? ==> Rest(t, hash, i, he, k) == None)
    && (forall k :: Find(t, hash, k) == if Find(n, hash, k).Some? then Find(n, hash, k) else Rest(t, hash, i, he, k))
    && Total(n) + Left(t, i, he) == Total(t)
  }

  ghost function Bucket<K, V>(t: seq<Chain<K, V>>, i: nat): Chain<K, V> {
    if i < |t| then t[i] else End
  }

  lemma {:induction false} EmptyTable<K(!new), V>(n: seq<Chain<K, V>>, hash: K -> nat)
    requires forall b :: 0 <= b < |n| ==> n[b] == End
    ensures Total(n) == 0 && WellPlaced(n, hash) && forall k :: Find(n, hash, k) == None
  {
    if n != [] {
      EmptyTable(n[1..], hash);
    }
  }

  lemma {:induction false} MoveStart<K(!new), V>(t: seq<Chain<K, V>>, hash: K -> nat, n: seq<Chain<K, V>>)
    requires WellPlaced(t, hash) && PowerOfTwo(|n|)
    requires forall b :: 0 <= b < |n| ==> n[b] == End
    ensures Moving(t, hash, n, 0, Bucket(t, 0))
    ensures Left(t, 0, Bucket(t, 0)) == Total(t)
  {
    EmptyTable(n, hash);
  }

  lemma {:induction false} MoveStep<K(!new), V>(t: seq<Chain<K, V>>, hash: K -> nat, n: seq<Chain<K, V>>, i: nat, he: Chain<K, V>)
    requires Moving(t, hash, n, i, he) && he.Link?
    ensures Slot(hash, he.key, |n|) < |n|
    ensures var h := Slot(hash, he.key, |n|);
            Moving(t, hash, n[h := Link(he.key, he.val, n[h])], i, he.next)
  {
    hide Slot, Total;
    assert Get(he, he.key) == Some(he.val);
    assert Slot(hash, he.key, |t|) == i;
    assert Rest(t, hash, i, he, he.key) == Some(he.val);
    LinkPlaced(n, hash, he.key, he.val);
    assert Belongs(he.next, hash, |t|, i) by {
      forall k | Get(he.next, k).Some? ensures Slot(hash, k, |t|) == i {
        assert Get(he, k).Some?;
      }
    }
  }

  lemma {:induction false} MoveNext<K(!new), V>(t: seq<Chain<K, V>>, hash: K -> nat, n: seq<Chain<K, V>>, i: nat)
    requires Moving(t, hash, n, i, End) && i < |t| && WellPlaced(t, hash)
    ensures Moving(t, hash, n, i + 1, Bucket(t, i + 1))
    ensures Left(t, i + 1, Bucket(t, i + 1)) == Left(t, i, End)
  {
    hide Slot;
    if i + 1 < |t| {
      assert t[i + 1..][1..] == t[i + 2..];
    }
  }

  /** Nothing left to move. */
  lemma {:induction false} MoveDone<K(!new), V>(t: seq<Chain<K, V>>, hash: K -> nat, n: seq<Chain<K, V>>, i: nat)
    requires Moving(t, hash, n, i, Bucket(t, i)) && (Left(t, i, Bucket(t, i)) == 0 || i >= |t|)
    ensures Left(t, i, Bucket(t, i)) == 0
    ensures WellPlaced(n, hash) && PowerOfTwo(|n|)
    ensures Total(n) == Total(t) && forall k :: Find(n, hash, k) == Find(t, hash, k)
  {
    if i < |t| {
      TotalZero(t[i + 1..]);
      forall k ensures Rest(t, hash, i, Bucket(t, i), k) == None {
        var b := Slot(hash, k, |t|);
        assert i < b < |t| ==> t[b] == t[i + 1..][b - i - 1];
      }
    }
  }

  lemma {:induction false} TotalZero<K, V>(t: seq<Chain<K, V>>)
    requires Total(t) == 0
    ensures forall b :: 0 <= b < |t| ==> t[b] == End
  {
    if t != [] {
      TotalZero(t[1..]);
      forall b | 0 <= b < |t| ensures t[b] == End {
        assert b > 0 ==> t[b] == t[1..][b - 1];
      }
    }
  }

  // ---------- Replacing and removing ----------

  /** The chain with the value of `k` replaced. */
  function Put<K(==), V>(c: Chain<K, V>, k: K, v: V): Chain<K, V> {
    if c.End? then End
    else if c.key == k then Link(k, v, c.next)
    else Link(c.key, c.val, Put(c.next, k, v))
  }

  /** The chain with the entry of `k` unlinked. */
  function Without<K(==), V>(c: Chain<K, V>, k: K): Chain<K, V> {
    if c.End? then End
    else if c.key == k then c.next
    else Link(c.key, c.val, Without(c.next, k))
  }

  lemma {:induction false} PutGet<K, V>(c: Chain<K, V>, k: K, v: V)
    requires Get(c, k).Some? && Unique(c)
    ensures forall x :: Get(Put(c, k, v), x) == if x == k then Some(v) else Get(c, x)
    ensures Unique(Put(c, k, v)) && Length(Put(c, k, v)) == Length(c)
  {
    if c.key != k {
      PutGet(c.next, k, v);
    }
  }

  lemma {:induction false} PutPlaced<K(!new), V>(t: seq<Chain<K, V>>, hash: K -> nat, k: K, v: V)
    requires |t| > 0 && WellPlaced(t, hash) && Find(t, hash, k).Some?
    ensures Slot(hash, k, |t|) < |t|
    ensures var b := Slot(hash, k, |t|); var t' := t[b := Put(t[b], k, v)];
            && WellPlaced(t', hash) && Total(t') == Total(t)
            && forall x :: Find(t', hash, x) == if x == k then Some(v) else Find(t, hash, x)
  {
    var b := Slot(hash, k, |t|);
    PutGet(t[b], k, v);
    TotalUpdate(t, b, Put(t[b], k, v));
  }

  lemma {:induction false} WithoutGet<K, V>(c: Chain<K, V>, k: K)
    requires Get(c, k).Some? && Unique(c)
    ensures forall x :: Get(Without(c, k), x) == if x == k then None else Get(c, x)
    ensures Unique(Without(c, k)) && Length(Without(c, k)) == Length(c) - 1
  {
    if c.key != k {
      WithoutGet(c.next, k);
    }
  }

  lemma {:induction false} WithoutPlaced<K(!new), V>(t: seq<Chain<K, V>>, hash: K -> nat, k: K)
    requires |t| > 0 && WellPlaced(t, hash) && Find(t, hash, k).Some?
    ensures Slot(hash, k, |t|) < |t|
    ensures var b := Slot(hash, k, |t|); var t' := t[b := Without(t[b], k)];
            && WellPlaced(t', hash) && Total(t') == Total(t) - 1
            && forall x :: Find(t', hash, x) == if x == k then None else Find(t, hash, x)
  {
    var b := Slot(hash, k, |t|);
    WithoutGet(t[b], k);
    TotalUpdate(t, b, Without(t[b], k));
  }

  // ---------- Listing ----------

  /** All entries, bucket by bucket. */
  function Listing<K, V>(t: seq<Chain<K, V>>): seq<(K, V)> {
    if t == [] then [] else Entries(t[0]) + Listing(t[1..])
  }

  /** Every binding of the map, each key once, and nothing else. */
  ghost predicate ListsExactly<K(!new), V(!new)>(es: seq<(K, V)>, m: map<K, V>) {
    && (forall k, v :: (k, v) in es <==> k in m && m[k] == v)
    && (forall k :: Occurs(es, k) == if k in m then 1 else 0)
  }

  /** What is left of `m` when the visited entries that `victim` picks, by position, are deleted. */
  ghost function Survivors<K, V>(m: map<K, V>, visited: seq<(K, V)>, victim: nat -> bool): map<K, V> {
    m - set i | 0 <= i < |visited| && victim(i) :: visited[i].0
  }

  lemma {:induction false} SurvivorsStep<K, V>(m: map<K, V>, visited: seq<(K, V)>, e: (K, V), victim: nat -> bool)
    ensures Survivors(m, visited + [e], victim)
         == if victim(|visited|) then Survivors(m, visited, victim) - {e.0} else Survivors(m, visited, victim)
  {
    var more := visited + [e];
    assert forall i :: 0 <= i < |visited| ==> more[i] == visited[i];
    assert more[|visited|] == e;
    assert (set i | 0 <= i < |more| && victim(i) :: more[i].0)
        == (set i | 0 <= i < |visited| && victim(i) :: visited[i].0) + if victim(|visited|) then {e.0} else {};
  }

  lemma {:induction false} AllSurvive<K, V>(m: map<K, V>, victim: nat -> bool)
    ensures Survivors(m, [], victim) == m
  {
  }

  // ---------- The listing is the map ----------

  lemma {:induction false} EntriesAre<K, V>(c: Chain<K, V>, k: K, v: V)
    requires Unique(c)
    ensures (k, v) in Entries(c) <==> Get(c, k) == Some(v)
  {
    if c.Link? {
      EntriesAre(c.next, k, v);
    }
  }

  lemma {:induction false} ListingHas<K, V>(t: seq<Chain<K, V>>, e: (K, V))
    ensures e in Listing(t) <==> exists b :: 0 <= b < |t| && e in Entries(t[b])
  {
    if t != [] {
      ListingHas(t[1..], e);
      if e in Listing(t[1..]) {
        var b :| 0 <= b < |t[1..]| && e in Entries(t[1..][b]);
        assert e in Entries(t[b + 1]);
      }
      if b :| 0 <= b < |t| && e in Entries(t[b]) {
        assert b > 0 ==> e in Entries(t[1..][b - 1]);
      }
    }
  }

  /** The entries listed are exactly the bindings of the map. */
  lemma {:induction false} ListingIsMap<K(!new), V>(t: seq<Chain<K, V>>, hash: K -> nat, m: map<K, V>, k: K, v: V)
    requires (|t| == 0 || PowerOfTwo(|t|)) && WellPlaced(t, hash) && Represents(t, hash, m)
    ensures (k, v) in Listing(t) <==> k in m && m[k] == v
    ensures |Listing(t)| == Total(t)
  {
    ListingHas(t, (k, v));
    ListingLength(t);
    assert Find(t, hash, k) == if k in m then Some(m[k]) else None;
    if |t| > 0 {
      SlotInRange(hash, k, |t|);
      forall b | 0 <= b < |t| ensures (k, v) in Entries(t[b]) ==> b == Slot(hash, k, |t|) {
        EntriesAre(t[b], k, v);
      }
      EntriesAre(t[Slot(hash, k, |t|)], k, v);
    }
  }

  lemma {:induction false} ListingLength<K, V>(t: seq<Chain<K, V>>)
    ensures |Listing(t)| == Total(t)
  {
    if t != [] {
      EntriesLength(t[0]);
      ListingLength(t[1..]);
    }
  }

  lemma {:induction false} EntriesLength<K, V>(c: Chain<K, V>)
    ensures |Entries(c)| == Length(c)
  {
    if c.Link? {
      EntriesLength(c.next);
    }
  }

  /** And every one is listed once. */
  lemma {:induction false} ListedOnce<K(!new), V>(t: seq<Chain<K, V>>, hash: K -> nat, n: nat, b0: nat, k: K)
    requires n >= 1 && forall b :: 0 <= b < |t| ==> Unique(t[b]) && Belongs(t[b], hash, n, b0 + b)
    ensures Occurs(Listing(t), k) <= 1
    ensures Occurs(Listing(t), k) == 1 ==> Slot(hash, k, n) >= b0
  {
    hide Slot;
    if t != [] {
      forall b | 0 <= b < |t[1..]| ensures Unique(t[1..][b]) && Belongs(t[1..][b], hash, n, b0 + 1 + b) {
        assert Unique(t[b + 1]) && Belongs(t[b + 1], hash, n, b0 + (b + 1));
      }
      ListedOnce(t[1..], hash, n, b0 + 1, k);
      OccursSplit(Entries(t[0]), Listing(t[1..]), k);
      EntriesOnce(t[0], k);
      assert Unique(t[0]) && Belongs(t[0], hash, n, b0 + 0);
    }
  }

  /** How often a key occurs in a listing. */
  function Occurs<K(==), V>(es: seq<(K, V)>, k: K): nat {
    if es == [] then 0 else (if es[0].0 == k then 1 else 0) + Occurs(es[1..], k)
  }

  lemma {:induction false} OccursSplit<K, V>(a: seq<(K, V)>, b: seq<(K, V)>, k: K)
    ensures Occurs(a + b, k) == Occurs(a, k) + Occurs(b, k)
  {
    if a == [] {
      assert a + b == b;
    } else {
      assert (a + b)[1..] == a[1..] + b;
      OccursSplit(a[1..], b, k);
    }
  }

  lemma {:induction false} EntriesOnce<K, V>(c: Chain<K, V>, k: K)
    requires Unique(c)
    ensures Occurs(Entries(c), k) == if Get(c, k).Some? then 1 else 0
  {
    if c.Link? {
      assert Entries(c)[1..] == Entries(c.next);
      EntriesOnce(c.next, k);
    }
  }

  lemma {:induction false} OccursIn<K, V>(es: seq<(K, V)>, e: (K, V))
    requires e in es
    ensures Occurs(es, e.0) >= 1
  {
    if es[0] != e {
      OccursIn(es[1..], e);
    }
  }

  lemma {:induction false} OccursSome<K, V>(es: seq<(K, V)>, k: K) returns (v: V)
    requires Occurs(es, k) >= 1
    ensures (k, v) in es
  {
    if es[0].0 == k {
      v := es[0].1;
    } else {
      v := OccursSome(es[1..], k);
    }
  }

  lemma {:induction false} ListingExact<K(!new), V(!new)>(t: seq<Chain<K, V>>, hash: K -> nat, m: map<K, V>)
    requires (|t| == 0 || PowerOfTwo(|t|)) && WellPlaced(t, hash) && Represents(t, hash, m)
    ensures ListsExactly(Listing(t), m)
  {
    hide WellPlaced, Represents, PowerOfTwo;
    forall k, v ensures (k, v) in Listing(t) <==> k in m && m[k] == v {
      ListingIsMap(t, hash, m, k, v);
    }
    forall k ensures Occurs(Listing(t), k) == if k in m then 1 else 0 {
      ListedAtMostOnce(t, hash, k);
      if k in m {
        OccursIn(Listing(t), (k, m[k]));
      } else if Occurs(Listing(t), k) >= 1 {
        var v := OccursSome(Listing(t), k);
      }
    }
  }

  lemma {:induction false} ListedAtMostOnce<K(!new), V>(t: seq<Chain<K, V>>, hash: K -> nat, k: K)
    requires WellPlaced(t, hash)
    ensures Occurs(Listing(t), k) <= 1
  {
    if t != [] {
      ListedOnce(t, hash, |t|, 0, k);
    }
  }
}
