/**
 The chained hash table of the async layer on the heap: entries linked into the buckets of an
 array of power-of-two size, relinked when the table grows, unlinked and freed when deleted, and
 an iterator that keeps a pointer to the next entry. The table is proved to be a finite map, and
 the iterator to return every entry once as long as its saved pointer stays in the live chain.
 */
module Dict {
  import opened Common
  import opened Arith
  import opened Chains

  class Entry<K, V> {
    const key: K
    var val: V
    var next: Entry?<K, V>

    constructor (key: K, val: V, next: Entry?<K, V>)
      ensures this.key == key && this.val == val && this.next == next
    {
      this.key, this.val, this.next := key, val, next;
    }
  }

  // ---------- Linked entries ----------

  /** An entry with the value it holds. */
  type Cell<!K, !V> = (Entry<K, V>, V)

  /** Following `next` from `p` passes the entries of `row`, all live, and then reaches `q`. */
  ghost predicate Path<K, V>(p: Entry?<K, V>, row: seq<Cell<K, V>>, q: Entry?<K, V>, live: set<Entry<K, V>>)
    reads live
    decreases |row|
  {
    if row == [] then p == q
    else
      && p != null && p == row[0].0 && p in live && p.val == row[0].1
      && Path(p.next, row[1..], q, live)
  }

  /** The keys and values of a row. */
  ghost function ChainOf<K, V>(row: seq<Cell<K, V>>): Chain<K, V> {
    if row == [] then End else Link(row[0].0.key, row[0].1, ChainOf(row[1..]))
  }

  ghost function ChainsOf<K, V>(rows: seq<seq<Cell<K, V>>>): (t: seq<Chain<K, V>>)
    ensures |t| == |rows|
  {
    seq(|rows|, b requires 0 <= b < |rows| => ChainOf(rows[b]))
  }

  ghost function First<K, V>(row: seq<Cell<K, V>>): Entry?<K, V> {
    if row == [] then null else row[0].0
  }

  lemma {:induction false} PathGrows<K, V>(p: Entry?<K, V>, row: seq<Cell<K, V>>, q: Entry?<K, V>,
                                           live: set<Entry<K, V>>, more: set<Entry<K, V>>)
    requires Path(p, row, q, live) && live <= more
    ensures Path(p, row, q, more)
    decreases |row|
  {
    if row != [] {
      PathGrows(p.next, row[1..], q, live, more);
    }
  }

  /** A path does not depend on an entry whose key is not on it. */
  lemma {:induction false} PathShrinks<K, V>(p: Entry?<K, V>, row: seq<Cell<K, V>>, q: Entry?<K, V>,
                                             live: set<Entry<K, V>>, e: Entry<K, V>)
    requires Path(p, row, q, live) && Get(ChainOf(row), e.key) == None
    ensures Path(p, row, q, live - {e})
    decreases |row|
  {
    if row != [] {
      PathShrinks(p.next, row[1..], q, live, e);
    }
  }

  lemma {:induction false} PathJoins<K, V>(p: Entry?<K, V>, a: seq<Cell<K, V>>, m: Entry?<K, V>, b: seq<Cell<K, V>>,
                                           q: Entry?<K, V>, live: set<Entry<K, V>>)
    requires Path(p, a, m, live) && Path(m, b, q, live)
    ensures Path(p, a + b, q, live)
    decreases |a|
  {
    if a == [] {
      assert a + b == b;
    } else {
      assert (a + b)[1..] == a[1..] + b;
      PathJoins(p.next, a[1..], m, b, q, live);
    }
  }

  lemma {:induction false} PathHead<K, V>(p: Entry?<K, V>, row: seq<Cell<K, V>>, live: set<Entry<K, V>>)
    requires Path(p, row, null, live)
    ensures p == First(row)
    ensures row != [] ==> row[0].0 in live && row[0].0.val == row[0].1 && Path(row[0].0.next, row[1..], null, live)
  {
  }

  // ---------- Rows and chains ----------

  lemma {:induction false} GetJoin<K, V>(a: seq<Cell<K, V>>, b: seq<Cell<K, V>>, k: K)
    ensures Get(ChainOf(a + b), k) == if Get(ChainOf(a), k).Some? then Get(ChainOf(a), k) else Get(ChainOf(b), k)
  {
    if a == [] {
      assert a + b == b;
    } else {
      assert (a + b)[1..] == a[1..] + b;
      GetJoin(a[1..], b, k);
    }
  }

  /** In a duplicate-free row the parts are duplicate-free and share no key. */
  lemma {:induction false} UniqueParts<K(!new), V>(a: seq<Cell<K, V>>, b: seq<Cell<K, V>>)
    requires Unique(ChainOf(a + b))
    ensures Unique(ChainOf(a)) && Unique(ChainOf(b))
    ensures forall k :: Get(ChainOf(a), k).Some? ==> Get(ChainOf(b), k) == None
  {
    if a == [] {
      assert a + b == b;
    } else {
      assert (a + b)[1..] == a[1..] + b;
      UniqueParts(a[1..], b);
      GetJoin(a[1..], b, a[0].0.key);
    }
  }

  lemma {:induction false} WithoutCell<K, V>(a: seq<Cell<K, V>>, c: Cell<K, V>, b: seq<Cell<K, V>>)
    requires Get(ChainOf(a), c.0.key) == None
    ensures Without(ChainOf(a + [c] + b), c.0.key) == ChainOf(a + b)
  {
    if a == [] {
      assert a + [c] + b == [c] + b && ([c] + b)[1..] == b && a + b == b;
    } else {
      assert (a + [c] + b)[1..] == a[1..] + [c] + b && (a + b)[1..] == a[1..] + b;
      WithoutCell(a[1..], c, b);
    }
  }

  lemma {:induction false} PutCell<K, V>(a: seq<Cell<K, V>>, c: Cell<K, V>, b: seq<Cell<K, V>>, v: V)
    requires Get(ChainOf(a), c.0.key) == None
    ensures Put(ChainOf(a + [c] + b), c.0.key, v) == ChainOf(a + [(c.0, v)] + b)
  {
    if a == [] {
      assert a + [c] + b == [c] + b && ([c] + b)[1..] == b;
      assert a + [(c.0, v)] + b == [(c.0, v)] + b && ([(c.0, v)] + b)[1..] == b;
    } else {
      assert (a + [c] + b)[1..] == a[1..] + [c] + b && (a + [(c.0, v)] + b)[1..] == a[1..] + [(c.0, v)] + b;
      PutCell(a[1..], c, b, v);
    }
  }

  lemma {:induction false} ChainsUpdate<K, V>(rows: seq<seq<Cell<K, V>>>, b: nat, row: seq<Cell<K, V>>)
    requires b < |rows|
    ensures ChainsOf(rows[b := row]) == ChainsOf(rows)[b := ChainOf(row)]
  {
  }

  // ---------- The bucket array ----------

  /** From bucket `from` on, each head leads through its row to the end. */
  ghost predicate Rows<K, V>(heads: seq<Entry?<K, V>>, rows: seq<seq<Cell<K, V>>>, from: nat, live: set<Entry<K, V>>)
    reads live
  {
    |heads| == |rows| && forall b :: from <= b < |rows| ==> Path(heads[b], rows[b], null, live)
  }

  lemma {:induction false} RowsGrow<K, V>(heads: seq<Entry?<K, V>>, rows: seq<seq<Cell<K, V>>>, from: nat,
                                          live: set<Entry<K, V>>, more: set<Entry<K, V>>)
    requires Rows(heads, rows, from, live) && live <= more
    ensures Rows(heads, rows, from, more)
  {
    forall b | from <= b < |rows| ensures Path(heads[b], rows[b], null, more) {
      PathGrows(heads[b], rows[b], null, live, more);
    }
  }

  /** Buckets that do not hold the key of an entry do not depend on the entry. */
  lemma {:induction false} RowsShrink<K(!new), V>(heads: seq<Entry?<K, V>>, rows: seq<seq<Cell<K, V>>>, from: nat,
                                                  live: set<Entry<K, V>>, e: Entry<K, V>, hash: K -> nat)
    requires Rows(heads, rows, from, live) && |rows| > 0 && WellPlaced(ChainsOf(rows), hash)
    requires Slot(hash, e.key, |rows|) < from
    ensures Rows(heads, rows, from, live - {e})
  {
    hide Slot;
    forall b | from <= b < |rows| ensures Path(heads[b], rows[b], null, live - {e}) {
      assert Belongs(ChainsOf(rows)[b], hash, |rows|, b);
      assert Get(ChainOf(rows[b]), e.key) == None;
      PathShrinks(heads[b], rows[b], null, live, e);
    }
  }

  const INITIAL_SIZE: nat := 4

  /** _dictNextPower: the least power of two from the initial size on that is large enough. */
  method NextPower(size: nat) returns (i: nat)
    ensures PowerOfTwo(i) && i >= size && i >= INITIAL_SIZE
    ensures i == INITIAL_SIZE || i / 2 < size
  {
    i := INITIAL_SIZE;
    assert PowerOfTwo(4) by {
      assert PowerOfTwo(2);
    }
    while i < size
      invariant PowerOfTwo(i) && i >= INITIAL_SIZE
      invariant i == INITIAL_SIZE || i / 2 < size
      decreases size - i
    {
      i := i * 2;
    }
  }

  class Dict<K(!new, ==), V> {
    const hash: K -> nat
    var table: array<Entry?<K, V>>
    var size: nat
    var used: nat
    /** The entries of each bucket in chain order, the entries not freed, and the map. */
    ghost var rows: seq<seq<Cell<K, V>>>
    ghost var live: set<Entry<K, V>>
    ghost var contents: map<K, V>

    ghost predicate Valid()
      reads this, table, live
    {
      && table.Length == size == |rows|
      && (size == 0 || PowerOfTwo(size))
      && Rows(table[..], rows, 0, live)
      && WellPlaced(ChainsOf(rows), hash)
      && Represents(ChainsOf(rows), hash, contents)
      && used == Total(ChainsOf(rows)) == |contents|
      && used <= size
    }

    constructor (hash: K -> nat)
      ensures Valid() && contents == map[] && size == 0 && this.hash == hash && fresh(table) && live == {}
    {
      this.hash := hash;
      table := new Entry?<K, V>[0];
      size, used, rows, live, contents := 0, 0, [], {}, map[];
    }

    /** dictExpand: relinks every entry into a table of at least `newSize` buckets. */
    method Expand(newSize: nat) returns (ok: bool)
      requires Valid()
      modifies this, live
      ensures Valid() && contents == old(contents)
      ensures ok == (old(used) <= newSize)
      ensures ok ==> size >= newSize && size >= INITIAL_SIZE && fresh(table) && used == old(used) && live <= old(live)
      ensures !ok ==> table == old(table) && size == old(size) && rows == old(rows) && live == old(live)
    {
      hide Moving, WellPlaced, Total, Find, Left, PowerOfTwo, ChainOf, ChainsOf, Path, Rows;
      var realsize := NextPower(newSize);
      if used > newSize {
        return false;
      }
      var n := new Entry?<K, V>[realsize](_ => null);
      var nused := used;
      ghost var nrows, moved := MoveAll(n);
      assert used == 0;
      table, size, used := n, realsize, nused;
      rows, live := nrows, moved;
      return true;
    }

    /** The loop over the old buckets: every entry ends in the new array, and the count of those
        left in the old one reaches zero. */
    method MoveAll(n: array<Entry?<K, V>>) returns (ghost nrows: seq<seq<Cell<K, V>>>, ghost moved: set<Entry<K, V>>)
      requires Valid() && n != table && PowerOfTwo(n.Length) && forall b :: 0 <= b < n.Length ==> n[b] == null
      modifies this`used, n, live
      ensures used == 0 && moved <= live && |nrows| == n.Length && Rows(n[..], nrows, 0, moved)
      ensures WellPlaced(ChainsOf(nrows), hash) && Represents(ChainsOf(nrows), hash, contents)
      ensures Total(ChainsOf(nrows)) == old(used)
    {
      hide Moving, WellPlaced, Total, Find, Left, PowerOfTwo, ChainOf, ChainsOf, Path, Rows;
      ghost var t, waiting := ChainsOf(rows), live;
      nrows, moved := EmptyRows(n.Length), {};
      NothingMoved(n[..]);
      MoveStart(t, hash, ChainsOf(nrows));
      var i := 0;
      while i < size && used > 0
        invariant 0 <= i <= |t| && |nrows| == n.Length
        invariant waiting <= live && moved <= live && waiting !! moved
        invariant Moving(t, hash, ChainsOf(nrows), i, Bucket(t, i)) && used == Left(t, i, Bucket(t, i))
        invariant Rows(n[..], nrows, 0, moved) && Rows(table[..], rows, i, waiting)
      {
        nrows, waiting, moved := MoveChain(n, nrows, i, waiting, moved);
        MoveNext(t, hash, ChainsOf(nrows), i);
        i := i + 1;
      }
      MoveDone(t, hash, ChainsOf(nrows), i);
    }

    /** The inner loop: the entries of one bucket, each with its successor saved before it is
        relinked at the head of its new bucket. */
    method MoveChain(n: array<Entry?<K, V>>, ghost nrows: seq<seq<Cell<K, V>>>, i: nat,
                     ghost waiting: set<Entry<K, V>>, ghost moved: set<Entry<K, V>>)
      returns (ghost nrows': seq<seq<Cell<K, V>>>, ghost waiting': set<Entry<K, V>>, ghost moved': set<Entry<K, V>>)
      requires i < size == |rows| == table.Length && n != table && waiting !! moved
      requires WellPlaced(ChainsOf(rows), hash)
      requires Moving(ChainsOf(rows), hash, ChainsOf(nrows), i, ChainsOf(rows)[i])
      requires used == Left(ChainsOf(rows), i, ChainsOf(rows)[i])
      requires Rows(n[..], nrows, 0, moved) && Rows(table[..], rows, i, waiting)
      modifies this`used, n, waiting
      ensures waiting' <= waiting && moved' == moved + (waiting - waiting') && |nrows'| == n.Length
      ensures Moving(ChainsOf(rows), hash, ChainsOf(nrows'), i, End) && used == Left(ChainsOf(rows), i, End)
      ensures Rows(n[..], nrows', 0, moved') && Rows(table[..], rows, i + 1, waiting')
    {
      hide Moving, WellPlaced, Slot, ChainsOf, PowerOfTwo, Find, Total, Path;
      ghost var t, heads := ChainsOf(rows), table[..];
      nrows', waiting', moved' := nrows, waiting, moved;
      ghost var rest := rows[i];
      ChainsAt(rows, i);
      var he := table[i];
      while he != null
        invariant waiting' <= waiting && moved' == moved + (waiting - waiting') && heads == table[..]
        invariant Path(he, rest, null, waiting') && Rows(heads, rows, i + 1, waiting') && Rows(n[..], nrows', 0, moved')
        invariant Moving(t, hash, ChainsOf(nrows'), i, ChainOf(rest)) && used == Left(t, i, ChainOf(rest))
        decreases |rest|
      {
        PathHead(he, rest, waiting');
        ghost var N, v := ChainsOf(nrows'), he.val;
        MoveStep(t, hash, N, i, ChainOf(rest));
        MovingHead(t, hash, N, i, ChainOf(rest));
        var nextHe := he.next;
        var h := Slot(hash, he.key, n.Length);
        PathShrinks(nextHe, rest[1..], null, waiting', he);
        RowsShrink(heads, rows, i + 1, waiting', he, hash);
        ghost var nheads := n[..];
        he.next := n[h];
        n[h] := he;
        assert n[..] == nheads[h := he];
        RowsLinked(nheads, nrows', h, he, moved');
        LinkedChains(nrows', h, he, v);
        nrows' := nrows'[h := [(he, v)] + nrows'[h]];
        waiting', moved' := waiting' - {he}, moved' + {he};
        used := used - 1;
        he, rest := nextHe, rest[1..];
      }
      PathHead(he, rest, waiting');
    }

    /** `he` is the entry at position `at` of the bucket of `k`, and `k` is its key. */
    ghost predicate Located(k: K, at: nat, he: Entry<K, V>)
      reads this
    {
      && size > 0 && Slot(hash, k, size) < |rows| && at < |rows[Slot(hash, k, size)]|
      && rows[Slot(hash, k, size)][at].0 == he && he.key == k
    }

    lemma {:induction false} NoBuckets(k: K)
      requires Valid() && size == 0
      ensures k !in contents
    {
      assert Find(ChainsOf(rows), hash, k) == None;
    }

    /** The bucket of a key decides about it. */
    lemma {:induction false} BucketOf(k: K)
      requires Valid() && size > 0
      ensures var h := Slot(hash, k, size);
              && h < size == |rows| == table.Length && Path(table[h], rows[h], null, live)
              && Get(ChainOf(rows[h]), k) == if k in contents then Some(contents[k]) else None
    {
      hide WellPlaced, Total, PowerOfTwo, Slot, ChainsOf, Path, ChainOf;
      SlotInRange(hash, k, size);
      ChainsAt(rows, Slot(hash, k, size));
      assert Find(ChainsOf(rows), hash, k) == Get(ChainOf(rows[Slot(hash, k, size)]), k);
    }

    /** The chain walk of dictFind and _dictKeyIndex. */
    method Walk(k: K) returns (he: Entry?<K, V>, ghost at: nat)
      requires Valid() && size > 0
      ensures he == null ==> k !in contents
      ensures he != null ==> Located(k, at, he) && he in live && k in contents && he.val == contents[k]
    {
      hide Valid, Slot, Path, ChainOf;
      BucketOf(k);
      var h := Slot(hash, k, size);
      ghost var row := rows[h];
      he, at := table[h], 0;
      assert row[0..] == row;
      EmptyChain(row[..0], k);
      while he != null
        invariant at <= |row| && Path(he, row[at..], null, live) && Get(ChainOf(row[..at]), k) == None
        decreases |row| - at
      {
        PathHead(he, row[at..], live);
        if k == he.key {
          GetAt(row, at);
          return;
        }
        NotYet(row, at, k);
        assert row[at..][1..] == row[at + 1..];
        he, at := he.next, at + 1;
      }
      PathHead(he, row[at..], live);
      assert row[..at] == row;
    }

    method DictFind(k: K) returns (he: Entry?<K, V>, ghost at: nat)
      requires Valid()
      ensures he == null <==> k !in contents
      ensures he != null ==> Located(k, at, he) && he in live && he.val == contents[k]
    {
      if size == 0 {
        NoBuckets(k);
        return null, 0;
      }
      he, at := Walk(k);
    }

    /** _dictExpandIfNeeded never fails and leaves room for one more entry. */
    method ExpandIfNeeded() returns (ok: bool)
      requires Valid()
      modifies this, live
      ensures Valid() && contents == old(contents) && ok
      ensures used < size && used == old(used)
      ensures (table == old(table) || fresh(table)) && live <= old(live)
    {
      hide WellPlaced, Total, PowerOfTwo, ChainsOf, Represents, Rows;
      if size == 0 {
        ok := Expand(INITIAL_SIZE);
      } else if used == size {
        ok := Expand(size * 2);
      } else {
        ok := true;
      }
    }

    /** _dictKeyIndex: None when the key exists. */
    method KeyIndex(k: K) returns (index: Option<nat>)
      requires Valid()
      modifies this, live
      ensures Valid() && contents == old(contents) && used < size && used == old(used)
      ensures (table == old(table) || fresh(table)) && live <= old(live)
      ensures index == if k in contents then None else Some(Slot(hash, k, size))
    {
      hide WellPlaced, Total, PowerOfTwo, ChainsOf, Represents, Rows;
      var ok := ExpandIfNeeded();
      if !ok {
        return None;
      }
      var h := Slot(hash, k, size);
      var he, _ := Walk(k);
      return if he != null then None else Some(h);
    }

    method Add(k: K, v: V) returns (ok: bool)
      requires Valid()
      modifies this, table, live
      ensures Valid() && (table == old(table) || fresh(table)) && fresh(live - old(live))
      ensures ok == (k !in old(contents))
      ensures contents == if ok then old(contents)[k := v] else old(contents)
    {
      hide WellPlaced, Total, PowerOfTwo, Represents, ChainsOf, Rows;
      var index := KeyIndex(k);
      if index.None? {
        return false;
      }
      LinkIn(index.value, k, v);
      return true;
    }

    /** The new entry goes to the front of its bucket. */
    method LinkIn(index: nat, k: K, v: V)
      requires Valid() && k !in contents && used < size && index == Slot(hash, k, size)
      modifies this`used, this`contents, this`rows, this`live, table
      ensures Valid() && contents == old(contents)[k := v] && fresh(live - old(live))
    {
      hide WellPlaced, Total, PowerOfTwo, Slot, ChainsOf, Path, Rows;
      ghost var t, heads := ChainsOf(rows), table[..];
      assert Find(t, hash, k) == None;
      LinkPlaced(t, hash, k, v);
      LinkFirst(index, k, v);
      used := used + 1;
      contents := contents[k := v];
    }

    method LinkFirst(index: nat, k: K, v: V)
      requires index < |rows| == table.Length && Rows(table[..], rows, 0, live)
      modifies this`rows, this`live, table
      ensures Rows(table[..], rows, 0, live) && fresh(live - old(live)) && |rows| == |old(rows)|
      ensures ChainsOf(rows) == ChainsOf(old(rows))[index := Link(k, v, ChainsOf(old(rows))[index])]
    {
      hide ChainsOf, Path;
      ghost var heads := table[..];
      var entry := new Entry(k, v, table[index]);
      RowsLinked(heads, rows, index, entry, live);
      table[index] := entry;
      assert table[..] == heads[index := entry];
      LinkedChains(rows, index, entry, v);
      rows := rows[index := [(entry, v)] + rows[index]];
      live := live + {entry};
    }

    /** dictReplace: 1 for a new key, 0 when an existing entry's value was replaced. */
    method Replace(k: K, v: V) returns (added: bool)
      requires Valid()
      modifies this, table, live
      ensures Valid() && (table == old(table) || fresh(table)) && fresh(live - old(live))
      ensures added == (k !in old(contents)) && contents == old(contents)[k := v]
    {
      hide WellPlaced, Total, PowerOfTwo, Represents, ChainsOf, Rows;
      added := Add(k, v);
      if !added {
        var entry, at := DictFind(k);
        Overwrite(entry, at, v);
      }
    }

    /** The value of an entry is replaced where it is. */
    method Overwrite(entry: Entry<K, V>, ghost at: nat, v: V)
      requires Valid() && Located(entry.key, at, entry) && entry in live && entry.key in contents
      modifies this`contents, this`rows, entry`val
      ensures Valid() && contents == old(contents)[entry.key := v] && entry.next == old(entry.next)
    {
      hide WellPlaced, Total, Slot, PowerOfTwo, ChainsOf, Path, Find;
      ghost var t, k, h := ChainsOf(rows), entry.key, Slot(hash, entry.key, size);
      ghost var heads, row, rest := table[..], rows[h], live - {entry};
      ghost var a, b := row[..at], row[at + 1..];
      assert row == a + [row[at]] + b;
      PutPlaced(t, hash, k, v);
      RowParts(rows, hash, h, at);
      Isolate(heads, rows, h, at, live, hash);
      PutCell(a, row[at], b, v);
      ChainsUpdate(rows, h, a + [(entry, v)] + b);
      ChainsAt(rows, h);
      entry.val := v;
      Rejoin(heads, rows, h, heads[h], a, [(entry, v)], b, rest, live);
      rows := rows[h := a + [(entry, v)] + b];
      assert heads[h := heads[h]] == heads;
      assert |contents[k := v]| == |contents| by {
        assert contents[k := v].Keys == contents.Keys;
      }
      contents := contents[k := v];
    }

    /** dictDelete: walks the chain with the previous entry at hand, unlinks the entry of the key
        and frees it. `at` is its position in the bucket. */
    method Delete(k: K) returns (ok: bool, ghost at: nat)
      requires Valid()
      modifies this, table, live
      ensures Valid() && table == old(table) && size == old(size)
      ensures ok == (k in old(contents)) && contents == old(contents) - {k}
      ensures !ok ==> rows == old(rows) && live == old(live)
      ensures ok ==>
        var h, was := Slot(hash, k, size), old(rows);
        && h < |was| && at < |was[h]| && was[h][at].0.key == k
        && rows == was[h := Cut(was[h], at)] && live == old(live) - {was[h][at].0}
    {
      hide Valid, Slot, Cut;
      RemovedSize(contents, k);
      if size == 0 {
        NoBuckets(k);
        return false, 0;
      }
      var h := Slot(hash, k, size);
      var prevde, de;
      prevde, de, at := WalkBehind(k);
      if de == null {
        return false, 0;
      }
      Unlink(h, prevde, de, at);
      return true, at;
    }

    /** Its loop: the entry of the key and the one before it in the chain. */
    method WalkBehind(k: K) returns (prevde: Entry?<K, V>, de: Entry?<K, V>, ghost at: nat)
      requires Valid() && size > 0
      ensures de == null <==> k !in contents
      ensures de != null ==>
        && Located(k, at, de)
        && prevde == if at == 0 then null else rows[Slot(hash, k, size)][at - 1].0
    {
      hide Valid, Slot, Path, ChainOf;
      BucketOf(k);
      var h := Slot(hash, k, size);
      ghost var row := rows[h];
      de, prevde, at := table[h], null, 0;
      assert row[0..] == row;
      EmptyChain(row[..0], k);
      while de != null
        invariant at <= |row| && Path(de, row[at..], null, live) && Get(ChainOf(row[..at]), k) == None
        invariant prevde == if at == 0 then null else row[at - 1].0
        decreases |row| - at
      {
        PathHead(de, row[at..], live);
        if k == de.key {
          GetAt(row, at);
          return;
        }
        NotYet(row, at, k);
        assert row[at..][1..] == row[at + 1..];
        prevde := de;
        de, at := de.next, at + 1;
      }
      PathHead(de, row[at..], live);
      assert row[..at] == row;
    }

    /** The entry's successor takes its place in the previous entry or in the bucket. */
    method Unlink(h: nat, prevde: Entry?<K, V>, de: Entry<K, V>, ghost at: nat)
      requires Valid() && Located(de.key, at, de) && h == Slot(hash, de.key, size) && de.key in contents
      requires prevde == if at == 0 then null else rows[h][at - 1].0
      modifies this`used, this`contents, this`rows, this`live, table, live
      ensures Valid() && contents == old(contents) - {de.key}
      ensures rows == old(rows)[h := Cut(old(rows)[h], at)] && live == old(live) - {de}
    {
      hide WellPlaced, Total, Slot, PowerOfTwo, ChainsOf, Path, Find, Without;
      ghost var t, k := ChainsOf(rows), de.key;
      assert Find(t, hash, k).Some?;
      WithoutPlaced(t, hash, k);
      CutChains(rows, hash, h, at);
      Relink(h, prevde, de, at);
      used := used - 1;
      RemovedSize(contents, k);
      contents := contents - {k};
    }

    method Relink(h: nat, prevde: Entry?<K, V>, de: Entry<K, V>, ghost at: nat)
      requires |rows| == table.Length && Rows(table[..], rows, 0, live) && WellPlaced(ChainsOf(rows), hash)
      requires h < |rows| && at < |rows[h]| && rows[h][at].0 == de
      requires prevde == if at == 0 then null else rows[h][at - 1].0
      modifies this`rows, this`live, table, live
      ensures Rows(table[..], rows, 0, live)
      ensures rows == old(rows)[h := Cut(old(rows)[h], at)] && live == old(live) - {de}
    {
      hide WellPlaced, Slot, ChainsOf, Path, RowsBut;
      ghost var heads, row := table[..], rows[h];
      Isolate(heads, rows, h, at, live, hash);
      ghost var b := row[at + 1..];
      live := live - {de};
      if prevde != null {
        IsolatePrevious(heads, rows, h, at, live, hash);
        prevde.next := de.next;
        Rejoin(heads, rows, h, heads[h], row[..at - 1], [row[at - 1]], b, live - {prevde}, live);
        assert row[..at - 1] + [row[at - 1]] == row[..at];
        assert heads[h := heads[h]] == heads;
      } else {
        assert heads[h] == de && row[..0] == [] by { EmptyPath(heads[h], row[..at], de, live); }
        table[h] := de.next;
        EmptyPath(table[h], [], table[h], live);
        Rejoin(heads, rows, h, table[h], [], [], b, live, live);
        assert table[..] == heads[h := table[h]];
        assert [] + [] + b == row[..at] + b;
      }
      rows := rows[h := Cut(row, at)];
    }
  }

  /** A row without the entry at a position. */
  ghost function Cut<K, V>(row: seq<Cell<K, V>>, at: nat): seq<Cell<K, V>>
    requires at < |row|
  {
    row[..at] + row[at + 1..]
  }

  lemma {:induction false} CutChains<K(!new), V>(rows: seq<seq<Cell<K, V>>>, hash: K -> nat, h: nat, at: nat)
    requires h < |rows| && at < |rows[h]| && WellPlaced(ChainsOf(rows), hash)
    ensures var t := ChainsOf(rows);
            ChainsOf(rows[h := Cut(rows[h], at)]) == t[h := Without(t[h], rows[h][at].0.key)]
  {
    hide WellPlaced, Slot, ChainsOf;
    var row := rows[h];
    RowParts(rows, hash, h, at);
    WithoutCell(row[..at], row[at], row[at + 1..]);
    assert row == row[..at] + [row[at]] + row[at + 1..];
    ChainsAt(rows, h);
    ChainsUpdate(rows, h, Cut(row, at));
  }

  lemma {:induction false} EmptyPath<K, V>(p: Entry?<K, V>, row: seq<Cell<K, V>>, q: Entry?<K, V>, live: set<Entry<K, V>>)
    requires row == []
    ensures Path(p, row, q, live) <==> p == q
  {
  }

  /** Once an entry is isolated, so is the one before it. */
  lemma {:induction false} IsolatePrevious<K(!new), V>(heads: seq<Entry?<K, V>>, rows: seq<seq<Cell<K, V>>>, h: nat, at: nat,
                                                       live: set<Entry<K, V>>, hash: K -> nat)
    requires h < |rows| && 0 < at < |rows[h]| && WellPlaced(ChainsOf(rows), hash) && RowsBut(heads, rows, h, live)
    requires var row := rows[h]; var de := row[at].0;
             Path(heads[h], row[..at], de, live) && Path(de.next, row[at + 1..], null, live)
    ensures var row := rows[h]; var e := row[at - 1].0;
            && RowsBut(heads, rows, h, live - {e}) && e in live && e.val == row[at - 1].1
            && Path(heads[h], row[..at - 1], e, live - {e})
            && Path(row[at].0.next, row[at + 1..], null, live - {e})
  {
    hide Slot;
    var row := rows[h];
    var a, e, de := row[..at - 1], row[at - 1].0, row[at].0;
    RowParts(rows, hash, h, at - 1);
    forall b | 0 <= b < |rows| && b != h ensures Path(heads[b], rows[b], null, live - {e}) {
      assert Belongs(ChainsOf(rows)[b], hash, |rows|, b);
      PathShrinks(heads[b], rows[b], null, live, e);
    }
    assert row[..at] == a + [row[at - 1]];
    PathLast(heads[h], a, row[at - 1], de, live);
    PathShrinks(heads[h], a, e, live, e);
    assert row[at..] == [row[at]] + row[at + 1..];
    GetJoin([row[at]], row[at + 1..], e.key);
    PathShrinks(de.next, row[at + 1..], null, live, e);
  }

  lemma {:induction false} PathLast<K, V>(p: Entry?<K, V>, a: seq<Cell<K, V>>, c: Cell<K, V>, q: Entry?<K, V>, live: set<Entry<K, V>>)
    requires Path(p, a + [c], q, live)
    ensures Path(p, a, c.0, live) && c.0 in live && c.0.val == c.1 && c.0.next == q
    decreases |a|
  {
    if a != [] {
      assert (a + [c])[1..] == a[1..] + [c];
      PathLast(p.next, a[1..], c, q, live);
    } else {
      var one: seq<Cell<K, V>> := a + [c];
      assert one[1..] == [];
    }
  }

  /** The parts of a row around one entry do not hold its key, and its key belongs here. */
  lemma {:induction false} RowParts<K(!new), V>(rows: seq<seq<Cell<K, V>>>, hash: K -> nat, h: nat, at: nat)
    requires h < |rows| && at < |rows[h]| && WellPlaced(ChainsOf(rows), hash)
    ensures var row := rows[h]; var k := row[at].0.key;
            && Get(ChainOf(row[..at]), k) == None && Get(ChainOf(row[at + 1..]), k) == None
            && Get(ChainOf(row), k) == Some(row[at].1) && Slot(hash, k, |rows|) == h
  {
    hide Slot;
    var row := rows[h];
    var k := row[at].0.key;
    assert Unique(ChainsOf(rows)[h]) && Belongs(ChainsOf(rows)[h], hash, |rows|, h);
    assert row == row[..at] + row[at..];
    UniqueParts(row[..at], row[at..]);
    assert row[at..] == [row[at]] + row[at + 1..] && row[at..][1..] == row[at + 1..];
    assert Get(ChainOf(row[at..]), k).Some?;
    GetJoin(row[..at], row[at..], k);
  }

  /** Without one entry, the other buckets and the parts of its row before and after it still
      stand. */
  lemma {:induction false} Isolate<K(!new), V>(heads: seq<Entry?<K, V>>, rows: seq<seq<Cell<K, V>>>, h: nat, at: nat,
                                               live: set<Entry<K, V>>, hash: K -> nat)
    requires Rows(heads, rows, 0, live) && WellPlaced(ChainsOf(rows), hash) && h < |rows| && at < |rows[h]|
    ensures var row := rows[h]; var e := row[at].0;
            && RowsBut(heads, rows, h, live - {e}) && e in live && e.val == row[at].1
            && Path(heads[h], row[..at], e, live - {e}) && Path(e.next, row[at + 1..], null, live - {e})
  {
    hide Slot;
    var row := rows[h];
    var e := row[at].0;
    RowParts(rows, hash, h, at);
    forall b | 0 <= b < |rows| && b != h ensures Path(heads[b], rows[b], null, live - {e}) {
      assert Belongs(ChainsOf(rows)[b], hash, |rows|, b);
      PathShrinks(heads[b], rows[b], null, live, e);
    }
    assert row == row[..at] + row[at..];
    PathSplits(heads[h], row[..at], row[at..], live);
    PathHead(e, row[at..], live);
    assert row[at..][1..] == row[at + 1..];
    PathShrinks(heads[h], row[..at], e, live, e);
    PathShrinks(e.next, row[at + 1..], null, live, e);
  }

  lemma {:induction false} PathSplits<K, V>(p: Entry?<K, V>, a: seq<Cell<K, V>>, b: seq<Cell<K, V>>, live: set<Entry<K, V>>)
    requires Path(p, a + b, null, live)
    ensures Path(p, a, First(b), live) && Path(First(b), b, null, live)
    decreases |a|
  {
    if a == [] {
      assert a + b == b;
      PathHead(p, b, live);
    } else {
      assert (a + b)[1..] == a[1..] + b;
      PathSplits(p.next, a[1..], b, live);
    }
  }

  ghost predicate RowsBut<K, V>(heads: seq<Entry?<K, V>>, rows: seq<seq<Cell<K, V>>>, h: nat, live: set<Entry<K, V>>)
    reads live
  {
    |heads| == |rows| && forall b :: 0 <= b < |rows| && b != h ==> Path(heads[b], rows[b], null, live)
  }

  /** A row put together again from its parts. */
  lemma {:induction false} Rejoin<K, V>(heads: seq<Entry?<K, V>>, rows: seq<seq<Cell<K, V>>>, h: nat, head: Entry?<K, V>,
                                        a: seq<Cell<K, V>>, mid: seq<Cell<K, V>>, b: seq<Cell<K, V>>,
                                        rest: set<Entry<K, V>>, live: set<Entry<K, V>>)
    requires h < |rows| && RowsBut(heads, rows, h, rest) && rest <= live && |mid| <= 1
    requires mid == [] ==> exists m :: Path(head, a, m, rest) && Path(m, b, null, rest)
    requires mid != [] ==>
      var e := mid[0].0;
      e in live && e.val == mid[0].1 && Path(head, a, e, rest) && Path(e.next, b, null, rest)
    ensures Rows(heads[h := head], rows[h := a + mid + b], 0, live)
  {
    forall i | 0 <= i < |rows| && i != h ensures Path(heads[i], rows[i], null, live) {
      PathGrows(heads[i], rows[i], null, rest, live);
    }
    if mid == [] {
      var m :| Path(head, a, m, rest) && Path(m, b, null, rest);
      PathJoins(head, a, m, b, null, rest);
      assert a + mid + b == a + b;
      PathGrows(head, a + b, null, rest, live);
    } else {
      var e := mid[0].0;
      PathGrows(head, a, e, rest, live);
      PathGrows(e.next, b, null, rest, live);
      assert mid == [mid[0]] && (mid + b)[1..] == b;
      assert Path(e, mid + b, null, live);
      PathJoins(head, a, e, mid + b, null, live);
      assert a + (mid + b) == a + mid + b;
    }
  }

  lemma {:induction false} EmptyChain<K, V>(row: seq<Cell<K, V>>, k: K)
    requires row == []
    ensures Get(ChainOf(row), k) == None
  {
  }

  lemma {:induction false} GetAt<K, V>(row: seq<Cell<K, V>>, at: nat)
    requires at < |row| && Get(ChainOf(row[..at]), row[at].0.key) == None
    ensures Get(ChainOf(row), row[at].0.key) == Some(row[at].1)
  {
    assert row == row[..at] + row[at..];
    GetJoin(row[..at], row[at..], row[at].0.key);
  }

  lemma {:induction false} NotYet<K, V>(row: seq<Cell<K, V>>, at: nat, k: K)
    requires at < |row| && Get(ChainOf(row[..at]), k) == None && row[at].0.key != k
    ensures Get(ChainOf(row[..at + 1]), k) == None
  {
    assert row[..at + 1] == row[..at] + [row[at]];
    var one: seq<Cell<K, V>> := [row[at]];
    assert ChainOf(one[1..]) == End;
    GetJoin(row[..at], one, k);
  }

  lemma {:induction false} ChainsAt<K, V>(rows: seq<seq<Cell<K, V>>>, b: nat)
    requires b < |rows|
    ensures ChainsOf(rows)[b] == ChainOf(rows[b])
  {
  }

  lemma {:induction false} MovingHead<K(!new), V>(t: seq<Chain<K, V>>, hash: K -> nat, n: seq<Chain<K, V>>, i: nat, c: Chain<K, V>)
    requires Moving(t, hash, n, i, c) && c.Link?
    ensures i < |t| && Slot(hash, c.key, |t|) == i && Get(c.next, c.key) == None
  {
    assert Get(c, c.key).Some?;
  }

  /** An entry that points to the head of a bucket becomes its head. */
  lemma {:induction false} RowsLinked<K, V>(heads: seq<Entry?<K, V>>, rows: seq<seq<Cell<K, V>>>, h: nat, e: Entry<K, V>,
                                            live: set<Entry<K, V>>)
    requires Rows(heads, rows, 0, live) && h < |rows| && e.next == heads[h]
    ensures Rows(heads[h := e], rows[h := [(e, e.val)] + rows[h]], 0, live + {e})
  {
    RowsGrow(heads, rows, 0, live, live + {e});
    var row := [(e, e.val)] + rows[h];
    assert row[1..] == rows[h];
    assert Path(e, row, null, live + {e});
  }

  lemma {:induction false} LinkedChains<K, V>(rows: seq<seq<Cell<K, V>>>, h: nat, e: Entry<K, V>, v: V)
    requires h < |rows|
    ensures ChainsOf(rows[h := [(e, v)] + rows[h]]) == ChainsOf(rows)[h := Link(e.key, v, ChainsOf(rows)[h])]
  {
    var row := [(e, v)] + rows[h];
    assert row[1..] == rows[h];
    ChainsUpdate(rows, h, row);
  }

  ghost function EmptyRows<K, V>(n: nat): seq<seq<Cell<K, V>>> {
    seq(n, _ => [])
  }

  lemma {:induction false} NothingMoved<K, V>(heads: seq<Entry?<K, V>>)
    requires forall b :: 0 <= b < |heads| ==> heads[b] == null
    ensures Rows(heads, EmptyRows(|heads|), 0, {})
    ensures forall b :: 0 <= b < |heads| ==> ChainsOf(EmptyRows<K, V>(|heads|))[b] == End
  {
  }

  // ---------- Every sequence of operations ----------

  datatype Op<K, V> = AddOp(key: K, val: V) | ReplaceOp(key: K, val: V) | DeleteOp(key: K) | FindOp(key: K)
  datatype Answer<V> = Did(ok: bool) | Found(val: Option<V>)

  /** What the operation does to a finite map. */
  function MapAfter<K, V>(m: map<K, V>, op: Op<K, V>): map<K, V> {
    match op
    case AddOp(k, v) => if k in m then m else m[k := v]
    case ReplaceOp(k, v) => m[k := v]
    case DeleteOp(k) => m - {k}
    case FindOp(_) => m
  }

  /** What it answers. */
  function MapAnswer<K, V>(m: map<K, V>, op: Op<K, V>): Answer<V> {
    match op
    case AddOp(k, _) => Did(k !in m)
    case ReplaceOp(k, _) => Did(k !in m)
    case DeleteOp(k) => Did(k in m)
    case FindOp(k) => Found(if k in m then Some(m[k]) else None)
  }

  function MapRun<K, V>(ops: seq<Op<K, V>>): map<K, V> {
    if ops == [] then map[] else MapAfter(MapRun(ops[..|ops| - 1]), ops[|ops| - 1])
  }

  /** The operation leaves the key alone. */
  predicate Spares<K(==), V>(op: Op<K, V>, k: K) {
    op.FindOp? || op.key != k
  }

  lemma {:induction false} Spared<K, V>(ops: seq<Op<K, V>>, more: seq<Op<K, V>>, k: K)
    requires forall i :: 0 <= i < |more| ==> Spares(more[i], k)
    ensures MapAnswer(MapRun(ops + more), FindOp(k)) == MapAnswer(MapRun(ops), FindOp(k))
    decreases |more|
  {
    if more == [] {
      assert ops + more == ops;
    } else {
      var n := |more| - 1;
      assert (ops + more)[..|ops| + n] == ops + more[..n] && (ops + more)[|ops| + n] == more[n];
      Spared(ops, more[..n], k);
    }
  }

  /** What a find answers, by the operations before it: nothing was ever written, a replaced value,
      nothing after a delete, and an added value unless there was one already. */
  lemma {:induction false} FindAnswers<K, V>(before: seq<Op<K, V>>, op: Op<K, V>, after: seq<Op<K, V>>, k: K)
    requires op.key == k && forall i :: 0 <= i < |after| ==> Spares(after[i], k)
    ensures var was, now := MapAnswer(MapRun(before), FindOp(k)), MapAnswer(MapRun(before + [op] + after), FindOp(k));
            && MapAnswer(MapRun(after), FindOp(k)) == Found(None)
            && (op.ReplaceOp? ==> now == Found(Some(op.val)))
            && (op.DeleteOp? ==> now == Found(None))
            && (op.AddOp? ==> now == if was == Found(None) then Found(Some(op.val)) else was)
            && (op.FindOp? ==> now == was)
    ensures var found := MapAnswer(MapRun(before), FindOp(k)) != Found(None);
            && (op.AddOp? || op.ReplaceOp? ==> MapAnswer(MapRun(before), op) == Did(!found))
            && (op.DeleteOp? ==> MapAnswer(MapRun(before), op) == Did(found))
  {
    assert (before + [op])[..|before|] == before;
    Spared(before + [op], after, k);
    Spared([], after, k);
    assert [] + after == after;
  }

  method Perform<K(!new, ==), V>(d: Dict<K, V>, op: Op<K, V>) returns (answer: Answer<V>)
    requires d.Valid()
    modifies d, d.table, d.live
    ensures d.Valid() && (d.table == old(d.table) || fresh(d.table)) && fresh(d.live - old(d.live))
    ensures d.contents == MapAfter(old(d.contents), op) && answer == MapAnswer(old(d.contents), op)
  {
    hide Dict.Valid;
    match op
    case AddOp(k, v) =>
      var ok := d.Add(k, v);
      answer := Did(ok);
    case ReplaceOp(k, v) =>
      var added := d.Replace(k, v);
      answer := Did(added);
    case DeleteOp(k) =>
      var ok, _ := d.Delete(k);
      answer := Did(ok);
    case FindOp(k) =>
      var he, _ := d.DictFind(k);
      answer := Found(if he == null then None else Some(he.val));
  }

  /** Over every sequence of operations, for every hash function, the table answers as a finite map. */
  method RunAll<K(!new, ==), V>(hash: K -> nat, ops: seq<Op<K, V>>) returns (answers: seq<Answer<V>>)
    ensures |answers| == |ops|
    ensures forall j :: 0 <= j < |ops| ==> answers[j] == MapAnswer(MapRun(ops[..j]), ops[j])
  {
    hide Dict.Valid, MapAnswer, MapAfter;
    var d := new Dict<K, V>(hash);
    answers := [];
    for i := 0 to |ops|
      invariant d.Valid() && fresh(d) && fresh(d.table) && fresh(d.live)
      invariant d.contents == MapRun(ops[..i]) && |answers| == i
      invariant forall j :: 0 <= j < i ==> answers[j] == MapAnswer(MapRun(ops[..j]), ops[j])
    {
      assert ops[..i + 1][..i] == ops[..i];
      var answer := Perform(d, ops[i]);
      answers := answers + [answer];
    }
  }

  // ---------- Iteration ----------

  /** The entries of the buckets after `index`. */
  ghost function Later<K, V>(t: seq<Chain<K, V>>, index: int): seq<(K, V)> {
    if -1 <= index < |t| then Listing(t[index + 1..]) else []
  }

  /** The rest of one bucket and the buckets after it. */
  ghost function AheadOf<K, V>(rest: seq<Cell<K, V>>, rows: seq<seq<Cell<K, V>>>, index: int): seq<(K, V)> {
    Entries(ChainOf(rest)) + Later(ChainsOf(rows), index)
  }

  class Iterator<K(!new, ==), V> {
    const ht: Dict<K, V>
    var index: int
    var entry: Entry?<K, V>
    var nextEntry: Entry?<K, V>
    /** The entries of the current bucket from the saved one on. */
    ghost var rest: seq<Cell<K, V>>

    constructor (ht: Dict<K, V>)
      ensures this.ht == ht && index == -1 && entry == null && nextEntry == null
    {
      this.ht := ht;
      index, entry, nextEntry, rest := -1, null, null, [];
    }

    /** The saved pointer is still in the chain of the current bucket: it is the first of the last
        entries of that chain, or null after its end. */
    ghost predicate Saved()
      reads this, ht
    {
      && -1 <= index
      && (entry != null ==> 0 <= index < |ht.rows| && EndsWith(ht.rows[index], rest) && nextEntry == First(rest))
    }

    /** The entry returned last is in the chain, right before the saved one. */
    ghost predicate JustReturned()
      reads this, ht
    {
      && entry != null && 0 <= index < |ht.rows| && |rest| < |ht.rows[index]|
      && ht.rows[index][|ht.rows[index]| - |rest| - 1].0 == entry
    }

    /** The entries still to come. */
    ghost function Ahead(): seq<(K, V)>
      reads this, ht
    {
      AheadOf(if entry != null then rest else [], ht.rows, index)
    }

    /** dictNext: saves the successor before the entry is handed out. */
    method Next() returns (e: Entry?<K, V>)
      requires ht.Valid() && Saved()
      modifies this
      ensures Saved() && e == entry
      ensures old(Ahead()) == [] ==> e == null && Ahead() == []
      ensures old(Ahead()) != [] ==>
        && e != null && e in ht.live && JustReturned()
        && (e.key, e.val) == old(Ahead())[0] && Ahead() == old(Ahead())[1..]
    {
      hide Dict.Valid, Path, AheadOf, EndsWith, JustReturned;
      Shape(ht);
      while true
        invariant Saved() && Ahead() == old(Ahead())
        decreases if index < ht.size then ht.size - index else 0, entry != null
      {
        if entry == null {
          NextBucket(ht.rows, index);
          index := index + 1;
          if index >= ht.size {
            break;
          }
          entry, rest := ht.table[index], ht.rows[index];
          PathHead(entry, rest, ht.live);
          WholeRow(rest);
        } else {
          entry := nextEntry;
        }
        assert AheadOf(rest, ht.rows, index) == old(Ahead());
        if entry != null {
          SaveNext();
          return entry;
        }
      }
      NextBucket(ht.rows, index);
      return null;
    }

    /** The successor of the entry about to be returned is saved. */
    method SaveNext()
      requires ht.Valid() && entry != null && 0 <= index < |ht.rows|
      requires EndsWith(ht.rows[index], rest) && First(rest) == entry
      modifies this`nextEntry, this`rest
      ensures Saved() && JustReturned() && entry in ht.live
      ensures var ahead := AheadOf(old(rest), ht.rows, index);
              ahead != [] && (entry.key, entry.val) == ahead[0] && Ahead() == ahead[1..]
    {
      hide Dict.Valid, Path, AheadOf, EndsWith;
      Shape(ht);
      Successor(ht.table[index], ht.rows[index], rest, ht.live);
      AheadStep(rest, ht.rows, index);
      nextEntry, rest := entry.next, rest[1..];
    }
  }

  lemma {:induction false} Shape<K(!new), V>(d: Dict<K, V>)
    requires d.Valid()
    ensures d.table.Length == d.size == |d.rows|
    ensures forall b :: 0 <= b < d.size ==> Path(d.table[b], d.rows[b], null, d.live)
  {
  }

  ghost predicate EndsWith<K, V>(row: seq<Cell<K, V>>, rest: seq<Cell<K, V>>) {
    |rest| <= |row| && row[|row| - |rest|..] == rest
  }

  lemma {:induction false} WholeRow<K, V>(row: seq<Cell<K, V>>)
    ensures EndsWith(row, row)
  {
  }

  /** The first of the last entries of a chain, and what it points to. */
  lemma {:induction false} Successor<K, V>(head: Entry?<K, V>, row: seq<Cell<K, V>>, rest: seq<Cell<K, V>>,
                                           live: set<Entry<K, V>>)
    requires Path(head, row, null, live) && EndsWith(row, rest) && rest != []
    ensures rest[0].0 in live && rest[0].0.val == rest[0].1 && rest[0].0.next == First(rest[1..])
    ensures |rest| <= |row| && EndsWith(row, rest[1..]) && row[|row| - |rest|].0 == rest[0].0
  {
    var n := |row| - |rest|;
    assert row == row[..n] + rest;
    PathSplits(head, row[..n], rest, live);
    PathHead(First(rest), rest, live);
    PathHead(rest[0].0.next, rest[1..], live);
    assert row[n + 1..] == rest[1..];
  }

  lemma {:induction false} AheadStep<K, V>(rest: seq<Cell<K, V>>, rows: seq<seq<Cell<K, V>>>, index: int)
    requires rest != []
    ensures var ahead := AheadOf(rest, rows, index);
            ahead != [] && ahead[0] == (rest[0].0.key, rest[0].1) && ahead[1..] == AheadOf(rest[1..], rows, index)
  {
    hide Later, ChainsOf;
    var e := (rest[0].0.key, rest[0].1);
    assert Entries(ChainOf(rest)) == [e] + Entries(ChainOf(rest[1..]));
  }

  lemma {:induction false} NextBucket<K, V>(rows: seq<seq<Cell<K, V>>>, index: int)
    requires -1 <= index
    ensures AheadOf([], rows, index)
         == if index + 1 < |rows| then AheadOf(rows[index + 1], rows, index + 1) else []
  {
    var t := ChainsOf(rows);
    if index + 1 < |t| {
      assert t[index + 1..][1..] == t[index + 2..];
    }
  }

  // ---------- Deleting while iterating ----------

  lemma {:induction false} HasKey<K, V>(row: seq<Cell<K, V>>, j: nat)
    requires j < |row|
    ensures Get(ChainOf(row), row[j].0.key).Some?
  {
    if j > 0 {
      HasKey(row[1..], j - 1);
    }
  }

  /** A key has one position in its bucket. */
  lemma {:induction false} OnePosition<K(!new), V>(rows: seq<seq<Cell<K, V>>>, hash: K -> nat, h: nat, i: nat, j: nat)
    requires h < |rows| && i < |rows[h]| && j < |rows[h]| && WellPlaced(ChainsOf(rows), hash)
    requires rows[h][i].0.key == rows[h][j].0.key
    ensures i == j
  {
    RowParts(rows, hash, h, i);
    if j < i {
      HasKey(rows[h][..i], j);
    } else if i < j {
      HasKey(rows[h][i + 1..], j - i - 1);
    }
  }

  lemma {:induction false} InContents<K(!new), V>(rows: seq<seq<Cell<K, V>>>, hash: K -> nat, m: map<K, V>, h: nat, i: nat)
    requires h < |rows| && i < |rows[h]| && WellPlaced(ChainsOf(rows), hash) && Represents(ChainsOf(rows), hash, m)
    ensures rows[h][i].0.key in m && Slot(hash, rows[h][i].0.key, |rows|) == h
  {
    RowParts(rows, hash, h, i);
    assert Find(ChainsOf(rows), hash, rows[h][i].0.key).Some?;
  }

  /** Cutting out an entry before the last ones leaves these where they are. */
  lemma {:induction false} CutKeepsEnd<K, V>(row: seq<Cell<K, V>>, at: nat, rest: seq<Cell<K, V>>)
    requires EndsWith(row, rest) && at < |row| - |rest|
    ensures EndsWith(Cut(row, at), rest)
  {
  }

  /** Only the current bucket changes, so what comes later does not. */
  lemma {:induction false} LaterSame<K, V>(rows: seq<seq<Cell<K, V>>>, index: nat, row: seq<Cell<K, V>>)
    requires index < |rows|
    ensures Later(ChainsOf(rows[index := row]), index) == Later(ChainsOf(rows), index)
  {
    assert ChainsOf(rows[index := row])[index + 1..] == ChainsOf(rows)[index + 1..];
  }

  /** Deleting the entry just returned frees it and does not disturb the iterator. */
  method DeleteReturned<K(!new, ==), V>(iter: Iterator<K, V>)
    requires iter.ht.Valid() && iter.Saved() && iter.JustReturned()
    modifies iter.ht, iter.ht.table, iter.ht.live
    ensures iter.ht.Valid() && iter.ht.table == old(iter.ht.table) && iter.Saved() && iter.Ahead() == old(iter.Ahead())
    ensures iter.ht.contents == old(iter.ht.contents) - {iter.entry.key}
    ensures iter.ht.live == old(iter.ht.live) - {iter.entry}
  {
    hide WellPlaced, Represents, Total, PowerOfTwo, Path, ChainOf, ChainsOf, Later, EndsWith, Slot, Cut;
    var ht := iter.ht;
    ghost var rows, h, rest := ht.rows, iter.index, iter.rest;
    ghost var j := |rows[h]| - |rest| - 1;
    InContents(rows, ht.hash, ht.contents, h, j);
    var ok, at := ht.Delete(iter.entry.key);
    OnePosition(rows, ht.hash, h, at, j);
    CutKeepsEnd(rows[h], at, rest);
    LaterSame(rows, h, Cut(rows[h], at));
  }

  /** Deleting the saved successor frees it: the iterator is left with a dangling pointer. */
  method DeleteSuccessor<K(!new, ==), V>(iter: Iterator<K, V>)
    requires iter.ht.Valid() && iter.Saved() && iter.entry != null && iter.nextEntry != null
    modifies iter.ht, iter.ht.table, iter.ht.live
    ensures iter.ht.Valid() && iter.nextEntry !in iter.ht.live && !iter.Saved()
  {
    hide WellPlaced, Represents, Total, PowerOfTwo, Path, ChainOf, ChainsOf, Later, Slot;
    var ht := iter.ht;
    ghost var rows, h, rest := ht.rows, iter.index, iter.rest;
    ghost var j := |rows[h]| - |rest|;
    assert rows[h][j] == rest[0];
    InContents(rows, ht.hash, ht.contents, h, j);
    var ok, at := ht.Delete(iter.nextEntry.key);
    OnePosition(rows, ht.hash, h, at, j);
    if iter.Saved() {
      AllLive(ht.table[h], ht.rows[h], ht.live, |ht.rows[h]| - |rest|);
    }
  }

  lemma {:induction false} AllLive<K, V>(p: Entry?<K, V>, row: seq<Cell<K, V>>, live: set<Entry<K, V>>, j: nat)
    requires Path(p, row, null, live) && j < |row|
    ensures row[j].0 in live
    decreases |row|
  {
    if j > 0 {
      AllLive(p.next, row[1..], live, j - 1);
    }
  }

  /** Visit every entry, deleting the one just returned whenever `victim` says so: the visits are
      exactly the entries present at the start, each once, and exactly the victims are gone. */
  method Visit<K(!new, ==), V(!new)>(d: Dict<K, V>, victim: nat -> bool) returns (visited: seq<(K, V)>)
    requires d.Valid()
    modifies d, d.table, d.live
    ensures d.Valid() && visited == Listing(ChainsOf(old(d.rows)))
    ensures ListsExactly(visited, old(d.contents))
    ensures d.contents == Survivors(old(d.contents), visited, victim)
  {
    hide WellPlaced, Represents, Total, ListsExactly, Listing, PowerOfTwo, Survivors, Path, ChainsOf, AheadOf;
    ghost var t, m := ChainsOf(d.rows), d.contents;
    ListingExact(t, d.hash, m);
    AllSurvive(m, victim);
    var iter := new Iterator(d);
    AllAhead(d.rows);
    visited := [];
    while true
      invariant d.Valid() && d.table == old(d.table) && d.live <= old(d.live)
      invariant iter.ht == d && fresh(iter) && iter.Saved() && visited + iter.Ahead() == Listing(t)
      invariant d.contents == Survivors(m, visited, victim)
      decreases |Listing(t)| - |visited|
    {
      ghost var ahead := iter.Ahead();
      var e := iter.Next();
      if e == null {
        break;
      }
      var pair := (e.key, e.val);
      SurvivorsStep(m, visited, pair, victim);
      Cons(visited, ahead, iter.Ahead(), Listing(t));
      visited := visited + [pair];
      if victim(|visited| - 1) {
        DeleteReturned(iter);
      }
    }
  }

  lemma {:induction false} AllAhead<K, V>(rows: seq<seq<Cell<K, V>>>)
    ensures AheadOf([], rows, -1) == Listing(ChainsOf(rows))
  {
    assert ChainsOf(rows)[0..] == ChainsOf(rows);
  }

  lemma {:induction false} Cons<T>(a: seq<T>, x: seq<T>, x': seq<T>, all: seq<T>)
    requires a + x == all && x != [] && x' == x[1..]
    ensures a + [x[0]] + x' == all
  {
    assert x == [x[0]] + x';
  }
}
