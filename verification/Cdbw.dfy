/** The constant-database writer: keys and data are collected in a chained hash table
    (`cdbw_put`), then a perfect hash over the keys is computed (`cdbw_output`). */
module Cdbw {
  import opened Bits
  import opened CdbwGraph
  import opened CdbwAssign

  type Key = seq<byte>

  datatype Hashes = Hashes(h0: nat, h1: nat, h2: nat)

  /** `struct key_hash`. */
  datatype KeyHash = KeyHash(key: Key, hashes: Hashes, idx: nat)

  /** A keyed hash function; the source uses `mi_vector_hash`. */
  type HashFunction = (Key, nat) -> Hashes

  const MAX_DATA_COUNTER: nat := 0xcccccccc
  const MAX_DATA_SIZE: nat := 0xffffffff

  // ------------------------------------------------------------- hash table

  /** The list an entry belongs to. */
  function Slot(x: KeyHash, n: nat): nat
    requires n > 0
  {
    x.hashes.h0 % n
  }

  predicate DistinctKeys(xs: seq<KeyHash>) { forall i, j :: 0 <= i < j < |xs| ==> xs[i].key != xs[j].key }

  predicate ListsDistinct(buckets: seq<seq<KeyHash>>) { forall b :: 0 <= b < |buckets| ==> DistinctKeys(buckets[b]) }

  /** All lists one after the other. */
  function Flat(buckets: seq<seq<KeyHash>>): seq<KeyHash> {
    if buckets == [] then [] else Flat(buckets[..|buckets| - 1]) + buckets[|buckets| - 1]
  }

  /** The lists hold exactly the entries of `table`, each in the list of its hash value. */
  ghost predicate Stores(buckets: seq<seq<KeyHash>>, table: map<Key, nat>, hash: HashFunction) {
    && |buckets| > 0
    && (forall b, x :: 0 <= b < |buckets| && x in buckets[b] ==>
         x.hashes == hash(x.key, 0) && Slot(x, |buckets|) == b && x.key in table && table[x.key] == x.idx)
    && (forall k :: k in table ==> KeyHash(k, hash(k, 0), table[k]) in buckets[hash(k, 0).h0 % |buckets|])
    && ListsDistinct(buckets)
  }

  lemma StoresNone(buckets: seq<seq<KeyHash>>, hash: HashFunction)
    requires |buckets| > 0 && forall b :: 0 <= b < |buckets| ==> buckets[b] == []
    ensures Stores(buckets, map[], hash)
  {
  }

  /** Whether a key is there shows in its list. */
  lemma StoresFind(buckets: seq<seq<KeyHash>>, table: map<Key, nat>, hash: HashFunction, k: Key)
    requires Stores(buckets, table, hash)
    ensures |buckets| > 0
    ensures k in table <==> exists x :: x in buckets[hash(k, 0).h0 % |buckets|] && x.key == k
  {
  }

  /** Inserting at the head of the right list. */
  lemma StoresInsert(buckets: seq<seq<KeyHash>>, table: map<Key, nat>, hash: HashFunction, x: KeyHash)
    requires Stores(buckets, table, hash) && x.key !in table && x.hashes == hash(x.key, 0)
    ensures Slot(x, |buckets|) < |buckets|
    ensures var b := Slot(x, |buckets|); Stores(buckets[b := [x] + buckets[b]], table[x.key := x.idx], hash)
  {
    hide DistinctKeys, ListsDistinct;
    var n := |buckets|;
    var b := Slot(x, n);
    var buckets', table' := buckets[b := [x] + buckets[b]], table[x.key := x.idx];
    forall c, y: KeyHash | 0 <= c < n && y in buckets'[c]
      ensures y.hashes == hash(y.key, 0) && Slot(y, n) == c && y.key in table' && table'[y.key] == y.idx
    {
      if y != x { assert y in buckets[c]; }
    }
    forall k | k in table' ensures KeyHash(k, hash(k, 0), table'[k]) in buckets'[hash(k, 0).h0 % n] {
      if k != x.key { assert KeyHash(k, hash(k, 0), table[k]) in buckets[hash(k, 0).h0 % n]; }
    }
    forall y: KeyHash | y in buckets[b] ensures y.key != x.key { assert y.key in table; }
    InsertDistinct(buckets, b, x);
  }

  lemma InsertDistinct(buckets: seq<seq<KeyHash>>, b: nat, x: KeyHash)
    requires ListsDistinct(buckets) && b < |buckets| && forall y :: y in buckets[b] ==> y.key != x.key
    ensures ListsDistinct(buckets[b := [x] + buckets[b]])
  {
    hide DistinctKeys;
    HeadDistinct(x, buckets[b]);
  }

  lemma HeadDistinct(x: KeyHash, xs: seq<KeyHash>)
    requires DistinctKeys(xs) && forall y :: y in xs ==> y.key != x.key
    ensures DistinctKeys([x] + xs)
  {
  }

  // ------------------------------------------------------------ flat listing

  lemma FlatNext(buckets: seq<seq<KeyHash>>, n: nat)
    requires n < |buckets|
    ensures Flat(buckets[..n + 1]) == Flat(buckets[..n]) + buckets[n]
  {
    var s := buckets[..n + 1];
    assert s[..|s| - 1] == buckets[..n] && s[|s| - 1] == buckets[n];
  }

  lemma {:induction false} FlatHas(buckets: seq<seq<KeyHash>>, x: KeyHash)
    ensures x in Flat(buckets) <==> exists b :: 0 <= b < |buckets| && x in buckets[b]
  {
    if buckets != [] {
      var n := |buckets| - 1;
      FlatHas(buckets[..n], x);
      if x in Flat(buckets[..n]) {
        var b :| 0 <= b < n && x in buckets[..n][b];
        assert x in buckets[b];
      }
      if b :| 0 <= b < |buckets| && x in buckets[b] && b < n {
        assert x in buckets[..n][b];
      }
    }
  }

  /** The entries seen when walking through all lists are those of the table, each key once. */
  ghost predicate Lists(xs: seq<KeyHash>, table: map<Key, nat>, hash: HashFunction) {
    && (forall x :: x in xs ==> x.hashes == hash(x.key, 0) && x.key in table && table[x.key] == x.idx)
    && (forall k :: k in table ==> KeyHash(k, hash(k, 0), table[k]) in xs)
  }

  lemma FlatLists(buckets: seq<seq<KeyHash>>, table: map<Key, nat>, hash: HashFunction)
    requires Stores(buckets, table, hash)
    ensures Lists(Flat(buckets), table, hash)
  {
    hide Flat, ListsDistinct;
    forall x | x in Flat(buckets) ensures x.hashes == hash(x.key, 0) && x.key in table && table[x.key] == x.idx {
      FlatHas(buckets, x);
    }
    forall k | k in table ensures KeyHash(k, hash(k, 0), table[k]) in Flat(buckets) {
      FlatHas(buckets, KeyHash(k, hash(k, 0), table[k]));
    }
  }

  lemma {:induction false} FlatDistinct(buckets: seq<seq<KeyHash>>, table: map<Key, nat>, hash: HashFunction, n: nat)
    requires Stores(buckets, table, hash) && n <= |buckets|
    ensures DistinctKeys(Flat(buckets[..n]))
  {
    hide Stores, DistinctKeys, Flat;
    if n > 0 {
      FlatDistinct(buckets, table, hash, n - 1);
      FlatNext(buckets, n - 1);
      ListDistinct(buckets, table, hash, n - 1);
      var a, b := Flat(buckets[..n - 1]), buckets[n - 1];
      forall x, y | x in a && y in b ensures x.key != y.key {
        EarlierDiffers(buckets, table, hash, n - 1, x, y);
      }
      DistinctConcat(a, b);
    } else {
      NothingTwice(buckets);
    }
  }

  lemma ListDistinct(buckets: seq<seq<KeyHash>>, table: map<Key, nat>, hash: HashFunction, b: nat)
    requires Stores(buckets, table, hash) && b < |buckets|
    ensures DistinctKeys(buckets[b])
  {
  }

  /** A key of an earlier list is not in a later one. */
  lemma EarlierDiffers(buckets: seq<seq<KeyHash>>, table: map<Key, nat>, hash: HashFunction, b: nat, x: KeyHash,
                       y: KeyHash)
    requires Stores(buckets, table, hash) && b < |buckets| && x in Flat(buckets[..b]) && y in buckets[b]
    ensures x.key != y.key
  {
    hide Flat, DistinctKeys;
    FlatHas(buckets[..b], x);
    var c :| 0 <= c < b && x in buckets[..b][c];
    assert x in buckets[c];
  }

  lemma NothingTwice(buckets: seq<seq<KeyHash>>)
    ensures DistinctKeys(Flat(buckets[..0]))
  {
  }

  lemma DistinctConcat(a: seq<KeyHash>, b: seq<KeyHash>)
    requires DistinctKeys(a) && DistinctKeys(b) && forall x, y :: x in a && y in b ==> x.key != y.key
    ensures DistinctKeys(a + b)
  {
    forall i, j | 0 <= i < j < |a + b| ensures (a + b)[i].key != (a + b)[j].key {
      if i < |a| <= j { assert (a + b)[i] in a && (a + b)[j] in b; }
    }
  }

  /** The map a list of entries stands for. */
  function MapOf(xs: seq<KeyHash>): map<Key, nat> {
    if xs == [] then map[] else MapOf(xs[..|xs| - 1])[xs[|xs| - 1].key := xs[|xs| - 1].idx]
  }

  lemma {:induction false} MapKeys(xs: seq<KeyHash>)
    ensures forall k :: k in MapOf(xs) <==> exists x :: x in xs && x.key == k
  {
    if xs != [] {
      var front, last := xs[..|xs| - 1], xs[|xs| - 1];
      MapKeys(front);
      assert xs == front + [last];
      forall k ensures k in MapOf(xs) <==> exists x :: x in xs && x.key == k {
        if k in MapOf(front) {
          var x :| x in front && x.key == k;
          assert x in xs;
        }
        if k == last.key { assert last in xs; }
      }
    }
  }

  lemma {:induction false} MapSize(xs: seq<KeyHash>)
    requires DistinctKeys(xs)
    ensures |MapOf(xs)| == |xs|
  {
    if xs != [] {
      var front, last := xs[..|xs| - 1], xs[|xs| - 1];
      MapSize(front);
      MapKeys(front);
      assert forall x :: x in front ==> x.key != last.key;
    }
  }

  lemma {:induction false} MapValues(xs: seq<KeyHash>, table: map<Key, nat>)
    requires forall x :: x in xs ==> x.key in table && table[x.key] == x.idx
    ensures forall k :: k in MapOf(xs) ==> k in table && MapOf(xs)[k] == table[k]
  {
    if xs != [] {
      var front, last := xs[..|xs| - 1], xs[|xs| - 1];
      assert xs == front + [last];
      MapValues(front, table);
      assert last in xs;
    }
  }

  lemma MapIs(xs: seq<KeyHash>, table: map<Key, nat>, hash: HashFunction)
    requires Lists(xs, table, hash)
    ensures MapOf(xs) == table
  {
    MapKeys(xs);
    MapValues(xs, table);
    forall k | k in table ensures k in MapOf(xs) {
      assert KeyHash(k, hash(k, 0), table[k]) in xs;
    }
  }

  lemma MapNext(xs: seq<KeyHash>, i: nat)
    requires i < |xs|
    ensures MapOf(xs[..i + 1]) == MapOf(xs[..i])[xs[i].key := xs[i].idx]
    ensures DistinctKeys(xs) ==> xs[i].key !in MapOf(xs[..i])
  {
    var s := xs[..i + 1];
    assert s[..|s| - 1] == xs[..i] && s[|s| - 1] == xs[i];
    MapKeys(xs[..i]);
  }

  /** What walking through all lists gives. */
  lemma Walk(buckets: seq<seq<KeyHash>>, table: map<Key, nat>, hash: HashFunction)
    requires Stores(buckets, table, hash)
    ensures var xs := Flat(buckets);
      Lists(xs, table, hash) && DistinctKeys(xs) && MapOf(xs) == table && |xs| == |table|
  {
    hide Stores, Flat, Lists, DistinctKeys, MapOf;
    assert buckets[..|buckets|] == buckets;
    FlatLists(buckets, table, hash);
    FlatDistinct(buckets, table, hash, |buckets|);
    MapIs(Flat(buckets), table, hash);
    MapSize(Flat(buckets));
  }

  // ------------------------------------------------------------ hash table

  lemma FlatAt(buckets: seq<seq<KeyHash>>, i: nat, j: nat)
    requires i < |buckets| && j < |buckets[i]|
    ensures |Flat(buckets[..i])| + j < |Flat(buckets)| && Flat(buckets)[|Flat(buckets[..i])| + j] == buckets[i][j]
    ensures |Flat(buckets[..i + 1])| == |Flat(buckets[..i])| + |buckets[i]|
  {
    FlatNext(buckets, i);
    FlatPrefix(buckets, i + 1);
  }

  lemma {:induction false} FlatPrefix(buckets: seq<seq<KeyHash>>, n: nat)
    requires n <= |buckets|
    ensures Flat(buckets[..n]) <= Flat(buckets)
    decreases |buckets|
  {
    if n == |buckets| {
      assert buckets[..n] == buckets;
    } else {
      var front := buckets[..|buckets| - 1];
      FlatPrefix(front, n);
      assert front[..n] == buckets[..n];
    }
  }

  /** The resizing step of `cdbw_put_key`: every entry goes to the head of its list in a table twice
      as large. */
  method Resize(old_: array<seq<KeyHash>>, ghost table: map<Key, nat>, ghost hash: HashFunction)
    returns (new_: array<seq<KeyHash>>)
    requires Stores(old_[..], table, hash)
    modifies old_
    ensures fresh(new_) && new_.Length == 2 * old_.Length && Stores(new_[..], table, hash)
  {
    hide Stores, Flat, Lists, DistinctKeys, MapOf;
    ghost var was := old_[..];
    StoresSize(was, table, hash);
    Walk(was, table, hash);
    ghost var xs := Flat(was);
    var size := 2 * old_.Length;
    new_ := new seq<KeyHash>[size](_ => []);
    StoresNone(new_[..], hash);
    assert xs[..0] == [];
    MapNone();
    assert was[..0] == [];
    FlatNone();
    var i := 0;
    ghost var at: nat := 0;
    while i < old_.Length
      invariant i <= old_.Length && new_.Length == size && at == |Flat(was[..i])| && at <= |xs|
      invariant forall b :: i <= b < old_.Length ==> old_[b] == was[b]
      invariant Stores(new_[..], MapOf(xs[..at]), hash)
    {
      FlatPrefix(was, i);
      FlatNext(was, i);
      FlatPrefix(was, i + 1);
      ghost var base := at;
      while old_[i] != []
        invariant new_.Length == size && |old_[i]| <= |was[i]| && at == base + (|was[i]| - |old_[i]|) <= |xs|
        invariant old_[i] == was[i][|was[i]| - |old_[i]|..]
        invariant forall b :: i < b < old_.Length ==> old_[b] == was[b]
        invariant Stores(new_[..], MapOf(xs[..at]), hash)
        decreases |old_[i]|
      {
        var x := old_[i][0];
        FlatAt(was, i, at - base);
        assert x == was[i][at - base] == xs[at];
        MapNext(xs, at);
        ListsAt(xs, table, hash, at);
        StoresInsert(new_[..], MapOf(xs[..at]), hash, x);
        ghost var n := new_[..];
        var b := x.hashes.h0 % size;
        old_[i] := old_[i][1..];
        new_[b] := [x] + new_[b];
        assert new_[..] == n[b := [x] + n[b]];
        at := at + 1;
      }
      i := i + 1;
    }
    assert was[..i] == was && xs[..at] == xs;
  }

  lemma StoresSize(buckets: seq<seq<KeyHash>>, table: map<Key, nat>, hash: HashFunction)
    requires Stores(buckets, table, hash)
    ensures |buckets| > 0
  {
  }

  lemma MapNone()
    ensures MapOf([]) == map[]
  {
  }

  lemma FlatNone()
    ensures Flat([]) == []
  {
  }

  lemma ListsAt(xs: seq<KeyHash>, table: map<Key, nat>, hash: HashFunction, i: nat)
    requires Lists(xs, table, hash) && i < |xs|
    ensures xs[i].hashes == hash(xs[i].key, 0) && xs[i].key in table && table[xs[i].key] == xs[i].idx
  {
  }

  // ---------------------------------------------------------------- writer

  function SizeOfAll(data: seq<seq<byte>>): nat {
    if data == [] then 0 else SizeOfAll(data[..|data| - 1]) + |data[|data| - 1]|
  }

  ghost predicate IndicesOk(table: map<Key, nat>, n: nat) { forall k :: k in table ==> table[k] < n }

  /** `struct cdbw`; `table` is the map the hash table stands for. */
  class Cdbw {
    const hash: HashFunction
    var data: seq<seq<byte>>
    var dataSize: nat
    var buckets: array<seq<KeyHash>>
    var keyCounter: nat
    ghost var table: map<Key, nat>

    constructor (hash: HashFunction)
      ensures Valid() && this.hash == hash && data == [] && table == map[] && fresh(buckets)
    {
      this.hash := hash;
      data, dataSize, keyCounter, table := [], 0, 0, map[];
      buckets := new seq<KeyHash>[1024](_ => []);
      new;
      StoresNone(buckets[..], hash);
    }

    ghost predicate Valid()
      reads this, buckets
    {
      && Stores(buckets[..], table, hash) && keyCounter == |table| && IndicesOk(table, |data|)
      && dataSize == SizeOfAll(data)
    }

    /** `cdbw_put_data`: `idx` is the place of the data, unless there is no room. */
    method PutData(d: seq<byte>) returns (rv: int, idx: nat)
      requires Valid()
      modifies this
      ensures Valid() && table == old(table) && keyCounter == old(keyCounter) && buckets == old(buckets)
      ensures rv == if old(|data|) == MAX_DATA_COUNTER || old(dataSize) + |d| > MAX_DATA_SIZE then -1 else 0
      ensures rv == 0 ==> idx == old(|data|) && data == old(data) + [d]
      ensures rv != 0 ==> data == old(data) && dataSize == old(dataSize)
    {
      hide Stores, Flat;
      if |data| == MAX_DATA_COUNTER { return -1, 0; }
      if dataSize + |d| > MAX_DATA_SIZE { return -1, 0; }
      idx := |data|;
      assert (data + [d])[..|data|] == data;
      data := data + [d];
      dataSize := dataSize + |d|;
      return 0, idx;
    }

    /** Whether the key is in its list. */
    method Search(key: Key, hashes: Hashes) returns (found: bool)
      requires Valid() && hashes == hash(key, 0)
      ensures found <==> key in table
    {
      hide Stores, Flat;
      StoresFind(buckets[..], table, hash, key);
      var list := buckets[hashes.h0 % buckets.Length];
      ListHashes(buckets[..], table, hash, hashes.h0 % buckets.Length);
      var i := 0;
      while i < |list|
        invariant i <= |list| && forall j :: 0 <= j < i ==> list[j].key != key
      {
        var x := list[i];
        if |x.key| == |key| && x.hashes == hashes && x.key == key {
          assert x in list;
          return true;
        }
        assert list[i] in list;
        i := i + 1;
      }
      return false;
    }

    /** `cdbw_put_key`: fails if the key is there already, and changes nothing then. */
    method PutKey(key: Key, idx: nat) returns (rv: int)
      requires Valid()
      modifies this, buckets
      ensures Valid() && data == old(data) && dataSize == old(dataSize)
      ensures buckets == old(buckets) || fresh(buckets)
      ensures rv == if idx >= |data| || old(keyCounter) == MAX_DATA_COUNTER || key in old(table) then -1 else 0
      ensures table == if rv == 0 then old(table)[key := idx] else old(table)
    {
      hide Stores, Flat;
      if idx >= |data| || keyCounter == MAX_DATA_COUNTER { return -1; }
      var hashes := hash(key, 0);
      var found := Search(key, hashes);
      if found { return -1; }
      var x := KeyHash(key, hashes, idx);
      ghost var was := buckets[..];
      StoresSize(was, table, hash);
      StoresInsert(was, table, hash, x);
      var b := hashes.h0 % buckets.Length;
      buckets[b] := [x] + buckets[b];
      assert buckets[..] == was[b := [x] + was[b]];
      table := table[key := idx];
      keyCounter := keyCounter + 1;
      if keyCounter <= buckets.Length { return 0; }
      buckets := Resize(buckets, table, hash);
      return 0;
    }

    /** `cdbw_put`: on success the data is appended and the key leads to it; on failure nothing has changed. */
    method Put(key: Key, d: seq<byte>) returns (rv: int)
      requires Valid()
      modifies this, buckets
      ensures Valid()
      ensures rv == 0 || rv == -1
      ensures rv == 0 <==> (old(|data|) != MAX_DATA_COUNTER && old(dataSize) + |d| <= MAX_DATA_SIZE
        && old(keyCounter) != MAX_DATA_COUNTER && key !in old(table))
      ensures rv == 0 ==> data == old(data) + [d] && table == old(table)[key := old(|data|)]
      ensures rv != 0 ==> data == old(data) && table == old(table) && dataSize == old(dataSize)
    {
      hide Stores, Flat;
      var idx;
      rv, idx := PutData(d);
      if rv != 0 { return rv; }
      ghost var more := data;
      rv := PutKey(key, idx);
      if rv != 0 {
        assert more[..|more| - 1] == old(data);
        data := data[..|data| - 1];
        dataSize := dataSize - |d|;
        return rv;
      }
      return 0;
    }
  }

  lemma ListHashes(buckets: seq<seq<KeyHash>>, table: map<Key, nat>, hash: HashFunction, b: nat)
    requires Stores(buckets, table, hash) && b < |buckets|
    ensures forall x :: x in buckets[b] ==> x.hashes == hash(x.key, 0)
  {
  }

  // ------------------------------------------------------------ perfect hash

  /** The edge of a key. */
  function EdgeOf(key: Key, idx: nat, hash: HashFunction, seed: nat, n: nat): Edge
    requires n > 0
  {
    var h := hash(key, seed);
    Edge(h.h0 % n, h.h1 % n, h.h2 % n, idx)
  }

  /** The edges of a list of entries. */
  function EdgesOf(xs: seq<KeyHash>, hash: HashFunction, seed: nat, n: nat): (E: seq<Edge>)
    requires n > 0
    ensures |E| == |xs|
  {
    seq(|xs|, i requires 0 <= i < |xs| => EdgeOf(xs[i].key, xs[i].idx, hash, seed, n))
  }

  function Entries(keys: nat): (n: nat)
    ensures n >= 10
  {
    var n := keys + (keys + 3) / 4;
    if n < 10 then 10 else n
  }

  /** Reading the values at the three vertices of a key gives its index. */
  ghost predicate PerfectHash(g: seq<nat>, table: map<Key, nat>, hash: HashFunction, seed: nat, d: nat) {
    && |g| > 0
    && forall k :: k in table ==> SumIs(g, EdgeOf(k, table[k], hash, seed, |g|), d)
  }

  lemma PerfectIntro(xs: seq<KeyHash>, g: seq<nat>, table: map<Key, nat>, hash: HashFunction, seed: nat, d: nat)
    requires |g| > 0 && Lists(xs, table, hash) && AllSums(EdgesOf(xs, hash, seed, |g|), g, d)
    ensures PerfectHash(g, table, hash, seed, d)
  {
    hide SumIs, EdgeOf;
    forall k | k in table ensures SumIs(g, EdgeOf(k, table[k], hash, seed, |g|), d) {
      var x := KeyHash(k, hash(k, 0), table[k]);
      var i :| 0 <= i < |xs| && xs[i] == x;
      assert EdgesOf(xs, hash, seed, |g|)[i] == EdgeOf(k, table[k], hash, seed, |g|);
    }
  }

  /** The edges made from the first `at` entries. */
  ghost predicate EdgesDone(es: seq<Edge>, xs: seq<KeyHash>, at: nat, hash: HashFunction, seed: nat, n: nat) {
    && n > 0 && at <= |xs| == |es|
    && forall i :: 0 <= i < at ==> es[i] == EdgeOf(xs[i].key, xs[i].idx, hash, seed, n) && EdgeOk(es[i], n)
  }

  lemma EdgesNext(es: seq<Edge>, xs: seq<KeyHash>, at: nat, hash: HashFunction, seed: nat, n: nat)
    requires EdgesDone(es, xs, at, hash, seed, n) && at < |xs|
    ensures var e := EdgeOf(xs[at].key, xs[at].idx, hash, seed, n);
      && |es| == |xs|
      && (EdgeOk(e, n) <==> e.a != e.b && e.a != e.c && e.b != e.c)
      && (EdgeOk(e, n) ==> EdgesDone(es[at := e], xs, at + 1, hash, seed, n))
      && (!EdgeOk(e, n) ==> !EdgesOk(EdgesOf(xs, hash, seed, n), n))
  {
    var e := EdgeOf(xs[at].key, xs[at].idx, hash, seed, n);
    assert EdgesOf(xs, hash, seed, n)[at] == e;
  }

  lemma EdgesAll(es: seq<Edge>, xs: seq<KeyHash>, hash: HashFunction, seed: nat, n: nat)
    requires EdgesDone(es, xs, |xs|, hash, seed, n)
    ensures es == EdgesOf(xs, hash, seed, n) && EdgesOk(es, n)
  {
    hide EdgeOk, EdgeOf;
  }

  /** The edges of all keys; fails if some key has the same vertex twice. */
  method MakeEdges(c: Cdbw, seed: nat, n: nat, ghost xs: seq<KeyHash>) returns (ok: bool, edges: array<Edge>)
    requires c.Valid() && n > 0 && xs == Flat(c.buckets[..]) && |xs| == c.keyCounter
    ensures fresh(edges) && edges.Length == |xs|
    ensures ok <==> EdgesOk(EdgesOf(xs, c.hash, seed, n), n)
    ensures ok ==> edges[..] == EdgesOf(xs, c.hash, seed, n)
  {
    hide EdgeOf, EdgeOk, EdgesOk, EdgesDone, EdgesOf, Flat, Stores;
    edges := new Edge[c.keyCounter](_ => Edge(0, 0, 0, 0));
    EdgesInit(edges[..], xs, c.hash, seed, n);
    var i, at := 0, 0;
    assert c.buckets[..][..0] == [];
    FlatNone();
    while i < c.buckets.Length
      invariant i <= c.buckets.Length && at == |Flat(c.buckets[..][..i])| <= |xs|
      invariant EdgesDone(edges[..], xs, at, c.hash, seed, n)
    {
      var list := c.buckets[i];
      FlatNext(c.buckets[..], i);
      FlatPrefix(c.buckets[..], i + 1);
      var j := 0;
      while j < |list|
        invariant j <= |list| && at == |Flat(c.buckets[..][..i])| + j
        invariant EdgesDone(edges[..], xs, at, c.hash, seed, n)
      {
        FlatAt(c.buckets[..], i, j);
        EdgesNext(edges[..], xs, at, c.hash, seed, n);
        var e := EdgeOf(list[j].key, list[j].idx, c.hash, seed, n);
        if e.a == e.b || e.a == e.c || e.b == e.c { return false, edges; }
        ghost var was := edges[..];
        edges[at] := e;
        assert edges[..] == was[at := e];
        at := at + 1;
        j := j + 1;
      }
      i := i + 1;
    }
    assert c.buckets[..][..i] == c.buckets[..];
    EdgesAll(edges[..], xs, c.hash, seed, n);
    ok := true;
  }

  lemma EdgesInit(es: seq<Edge>, xs: seq<KeyHash>, hash: HashFunction, seed: nat, n: nat)
    requires |es| == |xs| && n > 0
    ensures EdgesDone(es, xs, 0, hash, seed, n)
  {
  }

  /** A seed is good if no key has the same vertex twice and the edges can be peeled. */
  ghost predicate GoodSeed(xs: seq<KeyHash>, hash: HashFunction, seed: nat, n: nat) {
    n > 0 && EdgesOk(EdgesOf(xs, hash, seed, n), n) && Peelable(EdgesOf(xs, hash, seed, n))
  }

  lemma GoodParts(xs: seq<KeyHash>, hash: HashFunction, seed: nat, n: nat)
    requires n > 0
    ensures GoodSeed(xs, hash, seed, n) <==>
      EdgesOk(EdgesOf(xs, hash, seed, n), n) && Peelable(EdgesOf(xs, hash, seed, n))
  {
    hide EdgesOk, EdgesOf, Peelable;
  }

  lemma IndexFits(xs: seq<KeyHash>, table: map<Key, nat>, hash: HashFunction, seed: nat, n: nat, d: nat)
    requires Lists(xs, table, hash) && IndicesOk(table, d) && n > 0
    ensures IndexOk(EdgesOf(xs, hash, seed, n), d)
  {
    forall i | 0 <= i < |xs| ensures EdgesOf(xs, hash, seed, n)[i].idx < d { assert xs[i] in xs; }
  }

  // ------------------------------------------------ what that means for keys

  /** The vertex `v` belongs to the key. */
  predicate OnKey(k: Key, v: nat, hash: HashFunction, seed: nat, n: nat) {
    n > 0 && (v == hash(k, seed).h0 % n || v == hash(k, seed).h1 % n || v == hash(k, seed).h2 % n)
  }

  /** No key has the same vertex twice. */
  ghost predicate ThreeVertices(table: map<Key, nat>, hash: HashFunction, seed: nat, n: nat) {
    n > 0 && forall k :: k in table ==>
      var h := hash(k, seed); h.h0 % n != h.h1 % n && h.h0 % n != h.h2 % n && h.h1 % n != h.h2 % n
  }

  /** An order of all keys in which every key has a vertex that none before it has. */
  ghost predicate KeyOrder(order: seq<Key>, table: map<Key, nat>, hash: HashFunction, seed: nat, n: nat) {
    && |order| == |table| && (forall i :: 0 <= i < |order| ==> order[i] in table)
    && (forall i, j :: 0 <= i < j < |order| ==> order[i] != order[j])
    && forall i :: 0 <= i < |order| ==> OwnVertex(order, i, hash, seed, n)
  }

  ghost predicate OwnVertex(order: seq<Key>, i: nat, hash: HashFunction, seed: nat, n: nat)
    requires i < |order|
  {
    exists v: nat :: OnKey(order[i], v, hash, seed, n) && forall j :: 0 <= j < i ==> !OnKey(order[j], v, hash, seed, n)
  }

  /** Such an order exists. */
  ghost predicate KeysPeel(table: map<Key, nat>, hash: HashFunction, seed: nat, n: nat) {
    exists order: seq<Key> :: KeyOrder(order, table, hash, seed, n)
  }

  lemma EdgeMeans(xs: seq<KeyHash>, hash: HashFunction, seed: nat, n: nat, e: nat, v: nat)
    requires n > 0 && e < |xs|
    ensures var E := EdgesOf(xs, hash, seed, n);
      && (Inc(E[e], v) <==> OnKey(xs[e].key, v, hash, seed, n)) && E[e].idx == xs[e].idx
      && (EdgeOk(E[e], n) <==> (var h := hash(xs[e].key, seed);
            h.h0 % n != h.h1 % n && h.h0 % n != h.h2 % n && h.h1 % n != h.h2 % n))
  {
  }

  lemma OkMeans(xs: seq<KeyHash>, table: map<Key, nat>, hash: HashFunction, seed: nat, n: nat)
    requires n > 0 && Lists(xs, table, hash)
    ensures EdgesOk(EdgesOf(xs, hash, seed, n), n) <==> ThreeVertices(table, hash, seed, n)
  {
    hide EdgeOk, EdgesOf;
    var E := EdgesOf(xs, hash, seed, n);
    if ThreeVertices(table, hash, seed, n) {
      forall e | 0 <= e < |E| ensures EdgeOk(E[e], n) {
        EdgeMeans(xs, hash, seed, n, e, 0);
        ListsAt(xs, table, hash, e);
      }
    }
    if EdgesOk(E, n) {
      forall k | k in table ensures var h := hash(k, seed);
        h.h0 % n != h.h1 % n && h.h0 % n != h.h2 % n && h.h1 % n != h.h2 % n
      {
        var e := IndexOf(xs, table, hash, k);
        EdgeMeans(xs, hash, seed, n, e, 0);
      }
    }
  }

  lemma IndexOf(xs: seq<KeyHash>, table: map<Key, nat>, hash: HashFunction, k: Key) returns (e: nat)
    requires Lists(xs, table, hash) && k in table
    ensures e < |xs| && xs[e].key == k && xs[e].idx == table[k]
  {
    var x := KeyHash(k, hash(k, 0), table[k]);
    e :| 0 <= e < |xs| && xs[e] == x;
  }

  /** A peeling order of the edges is one of the keys. */
  lemma OrderOfKeys(xs: seq<KeyHash>, table: map<Key, nat>, hash: HashFunction, seed: nat, n: nat, order: seq<nat>)
    requires n > 0 && Lists(xs, table, hash) && DistinctKeys(xs) && |xs| == |table|
    requires Peeled(EdgesOf(xs, hash, seed, n), order)
    ensures KeysPeel(table, hash, seed, n)
  {
    hide EdgesOf, Inc, OnKey, Lists;
    var E := EdgesOf(xs, hash, seed, n);
    var ks := seq(|order|, i requires 0 <= i < |order| => xs[order[i]].key);
    forall i | 0 <= i < |ks| ensures ks[i] in table && OwnVertex(ks, i, hash, seed, n) {
      ListsAt(xs, table, hash, order[i]);
      assert HasFree(E, order, i);
      var v: nat :| FreeAt(E, order, 0, i, v);
      EdgeMeans(xs, hash, seed, n, order[i], v);
      forall j | 0 <= j < i ensures !OnKey(ks[j], v, hash, seed, n) { EdgeMeans(xs, hash, seed, n, order[j], v); }
    }
    assert KeyOrder(ks, table, hash, seed, n);
  }

  /** And back. */
  lemma OrderOfEdges(xs: seq<KeyHash>, table: map<Key, nat>, hash: HashFunction, seed: nat, n: nat, ks: seq<Key>)
    requires n > 0 && Lists(xs, table, hash) && |xs| == |table| && KeyOrder(ks, table, hash, seed, n)
    ensures Peelable(EdgesOf(xs, hash, seed, n))
  {
    hide EdgesOf, Inc, OnKey, Lists;
    var E := EdgesOf(xs, hash, seed, n);
    var order := Indices(xs, table, hash, ks);
    forall i | 0 <= i < |order| ensures HasFree(E, order, i) {
      assert OwnVertex(ks, i, hash, seed, n);
      var v: nat :| OnKey(ks[i], v, hash, seed, n) && forall j :: 0 <= j < i ==> !OnKey(ks[j], v, hash, seed, n);
      EdgeMeans(xs, hash, seed, n, order[i], v);
      forall j | 0 <= j < i ensures !Inc(E[order[j]], v) { EdgeMeans(xs, hash, seed, n, order[j], v); }
      assert FreeAt(E, order, 0, i, v);
    }
    assert Peeled(E, order);
  }

  lemma {:induction false} Indices(xs: seq<KeyHash>, table: map<Key, nat>, hash: HashFunction, ks: seq<Key>)
    returns (order: seq<nat>)
    requires Lists(xs, table, hash) && forall i :: 0 <= i < |ks| ==> ks[i] in table
    ensures |order| == |ks| && forall i :: 0 <= i < |ks| ==> order[i] < |xs| && xs[order[i]].key == ks[i]
    decreases |ks|
  {
    if ks == [] {
      order := [];
    } else {
      var front := Indices(xs, table, hash, ks[..|ks| - 1]);
      var e := IndexOf(xs, table, hash, ks[|ks| - 1]);
      order := front + [e];
    }
  }

  lemma PeelMeans(xs: seq<KeyHash>, table: map<Key, nat>, hash: HashFunction, seed: nat, n: nat)
    requires n > 0 && Lists(xs, table, hash) && DistinctKeys(xs) && |xs| == |table|
    ensures Peelable(EdgesOf(xs, hash, seed, n)) <==> KeysPeel(table, hash, seed, n)
  {
    hide EdgesOf, Peeled, KeyOrder, Lists, DistinctKeys;
    if order: seq<nat> :| Peeled(EdgesOf(xs, hash, seed, n), order) {
      OrderOfKeys(xs, table, hash, seed, n, order);
    }
    if ks: seq<Key> :| KeyOrder(ks, table, hash, seed, n) {
      OrderOfEdges(xs, table, hash, seed, n, ks);
    }
  }

  /** The values read at the three vertices of each key give its index. */
  lemma SumsMean(xs: seq<KeyHash>, g: seq<nat>, table: map<Key, nat>, hash: HashFunction, seed: nat, d: nat)
    requires |g| > 0 && d > 0 && Lists(xs, table, hash) && AllSums(EdgesOf(xs, hash, seed, |g|), g, d)
    ensures forall k :: k in table ==> var h := hash(k, seed);
      (g[h.h0 % |g|] + g[h.h1 % |g|] + g[h.h2 % |g|]) % d == table[k]
  {
    forall k | k in table ensures var h := hash(k, seed);
      (g[h.h0 % |g|] + g[h.h1 % |g|] + g[h.h2 % |g|]) % d == table[k]
    {
      var e := IndexOf(xs, table, hash, k);
      assert SumIs(g, EdgesOf(xs, hash, seed, |g|)[e], d);
    }
  }

  lemma EntriesIs(keys: nat)
    ensures Entries(keys) == if keys <= 7 then 10 else keys + (keys + 3) / 4
  {
  }

  /** Building the graph, peeling it and assigning the values. */
  method Round(c: Cdbw, seed: nat, n: nat, ghost xs: seq<KeyHash>) returns (ok: bool, g: array<nat>)
    requires c.Valid() && n > 0 && xs == Flat(c.buckets[..]) && |xs| == c.keyCounter && Lists(xs, c.table, c.hash)
    requires |c.data| > 0 && (3 * |c.data| <= WORD || WORD % |c.data| == 0) && IndicesOk(c.table, |c.data|)
    ensures fresh(g)
    ensures ok <==> EdgesOk(EdgesOf(xs, c.hash, seed, n), n) && Peelable(EdgesOf(xs, c.hash, seed, n))
    ensures ok ==> g.Length == n && AllSums(EdgesOf(xs, c.hash, seed, n), g[..], |c.data|)
  {
    hide EdgeOf, EdgeOk, EdgesOk, EdgesOf, Flat, Stores, Peelable, Peeled, AllSums, SumIs;
    hide Lists, DistinctKeys, IndexOk, IndicesOk, Incidence, Stuck;
    g := new nat[0];
    var edges;
    ok, edges := MakeEdges(c, seed, n, xs);
    if !ok { return; }
    var p := new Peeler(edges, n);
    ghost var R;
    ok, R := Peel(p);
    if !ok { return; }
    IndexFits(xs, c.table, c.hash, seed, n, |c.data|);
    g := AssignNodes(edges, p.order, n, |c.data|);
  }

  lemma ValidParts(c: Cdbw)
    requires c.Valid()
    ensures c.keyCounter == |c.table| && Stores(c.buckets[..], c.table, c.hash) && IndicesOk(c.table, |c.data|)
  {
    hide Stores, IndicesOk;
  }

  /** Everything that a successful round means. */
  lemma RoundMeans(xs: seq<KeyHash>, g: seq<nat>, table: map<Key, nat>, hash: HashFunction, seed: nat, d: nat)
    requires |g| > 0 && d > 0 && Lists(xs, table, hash) && AllSums(EdgesOf(xs, hash, seed, |g|), g, d)
    requires EdgesOk(EdgesOf(xs, hash, seed, |g|), |g|)
    ensures PerfectHash(g, table, hash, seed, d)
    ensures forall k :: k in table ==> var h := hash(k, seed);
      && h.h0 % |g| != h.h1 % |g| && h.h0 % |g| != h.h2 % |g| && h.h1 % |g| != h.h2 % |g|
      && (g[h.h0 % |g|] + g[h.h1 % |g|] + g[h.h2 % |g|]) % d == table[k]
  {
    PerfectIntro(xs, g, table, hash, seed, d);
    SumsMean(xs, g, table, hash, seed, d);
    OkMeans(xs, table, hash, seed, |g|);
    hide EdgesOk, EdgesOf, AllSums, Lists, PerfectHash;
  }

  /** One round of `cdbw_output` (`build_graph`, `assign_nodes`): it succeeds exactly with a good seed, and
      then the values lead from every key to the index of its data. */
  method Output(c: Cdbw, seed: nat) returns (ok: bool, g: array<nat>)
    requires c.Valid() && |c.data| > 0 && (3 * |c.data| <= WORD || WORD % |c.data| == 0)
    ensures fresh(g)
    ensures ok <==> GoodSeed(Flat(c.buckets[..]), c.hash, seed, Entries(c.keyCounter))
    ensures ok ==> PerfectHash(g[..], c.table, c.hash, seed, |c.data|) && g.Length == Entries(c.keyCounter)
    ensures var keys := |c.table|;
      var n := if keys <= 7 then 10 else keys + (keys + 3) / 4;
      && (ok <==> ThreeVertices(c.table, c.hash, seed, n) && KeysPeel(c.table, c.hash, seed, n))
      && (ok ==> g.Length == n)
    ensures ok ==> g.Length > 0 && forall k :: k in c.table ==> var h := c.hash(k, seed);
      && h.h0 % g.Length != h.h1 % g.Length && h.h0 % g.Length != h.h2 % g.Length && h.h1 % g.Length != h.h2 % g.Length
      && (g[h.h0 % g.Length] + g[h.h1 % g.Length] + g[h.h2 % g.Length]) % |c.data| == c.table[k]
  {
    hide *;
    ghost var xs := Flat(c.buckets[..]);
    ValidParts(c);
    Walk(c.buckets[..], c.table, c.hash);
    var n := Entries(c.keyCounter);
    EntriesIs(c.keyCounter);
    GoodParts(xs, c.hash, seed, n);
    OkMeans(xs, c.table, c.hash, seed, n);
    PeelMeans(xs, c.table, c.hash, seed, n);
    ok, g := Round(c, seed, n, xs);
    if ok { RoundMeans(xs, g[..], c.table, c.hash, seed, |c.data|); }
  }
}
