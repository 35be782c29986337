/** The chained hash map over byte-string keys. */
module HashMap {
  import opened MachineInts
  import opened Options

  type Key = seq<nat>

  datatype Node<V> = Node(key: Key, value: V)

  /** h = 31 * h + byte in 32-bit unsigned arithmetic, over the first `n` bytes. */
  function HashFrom(key: Key, n: nat): (h: nat)
    requires n <= |key|
    ensures h < TWO_32
  {
    if n == 0 then 0 else (31 * HashFrom(key, n - 1) + key[n - 1]) % TWO_32
  }

  function Hash(key: Key): nat {
    HashFrom(key, |key|)
  }

  function Bucket(key: Key, capacity: nat): (b: nat)
    requires capacity > 0
    ensures b < capacity
  {
    Hash(key) % capacity
  }

  function Power31(n: nat): nat {
    if n == 0 then 1 else 31 * Power31(n - 1)
  }

  /** The key read as a number in base 31, first byte most significant. */
  function Base31(key: Key): nat {
    if key == [] then 0 else key[0] * Power31(|key| - 1) + Base31(key[1..])
  }

  lemma {:induction false} Base31Last(key: Key, x: nat)
    ensures Base31(key + [x]) == 31 * Base31(key) + x
  {
    if key == [] {
      assert Power31(0) == 1;
    } else {
      assert (key + [x])[1..] == key[1..] + [x];
      Base31Last(key[1..], x);
      assert key[0] * (31 * Power31(|key| - 1)) == 31 * (key[0] * Power31(|key| - 1));
    }
  }

  /** The rolling hash is the key's number in base 31, modulo 2^32, and the bucket that modulo the capacity. */
  lemma {:induction false} HashIsBase31(key: Key, n: nat)
    requires n <= |key|
    ensures HashFrom(key, n) == Base31(key[..n]) % TWO_32
    decreases n
  {
    if n > 0 {
      HashIsBase31(key, n - 1);
      assert key[..n] == key[..n - 1] + [key[n - 1]];
      Base31Last(key[..n - 1], key[n - 1]);
      HashStep(Base31(key[..n - 1]), key[n - 1]);
    }
  }

  lemma HashStep(h: nat, x: nat)
    ensures (31 * (h % TWO_32) + x) % TWO_32 == (31 * h + x) % TWO_32
  {
    ModShift(31 * (h % TWO_32) + x, TWO_32, 31 * (h / TWO_32));
  }

  lemma BucketOfKey(key: Key, capacity: nat)
    requires capacity > 0
    ensures Bucket(key, capacity) == Base31(key) % TWO_32 % capacity
  {
    HashIsBase31(key, |key|);
    assert key[..|key|] == key;
  }

  /** The first node with the key: what a chain walk finds. */
  function Find<V>(chain: seq<Node<V>>, key: Key): Option<V> {
    if chain == [] then None
    else if chain[0].key == key then Some(chain[0].value)
    else Find(chain[1..], key)
  }

  lemma {:induction false} FindFinds<V>(chain: seq<Node<V>>, key: Key)
    ensures Find(chain, key).Some? ==> Node(key, Find(chain, key).value) in chain
    ensures Find(chain, key).None? ==> forall k :: 0 <= k < |chain| ==> chain[k].key != key
    ensures forall k :: 0 <= k < |chain| && chain[k].key == key && (forall j :: 0 <= j < k ==> chain[j].key != key) ==>
      Find(chain, key) == Some(chain[k].value)
  {
    if chain != [] && chain[0].key != key {
      FindFinds(chain[1..], key);
      assert forall k :: 1 <= k < |chain| ==> chain[k] == chain[1..][k - 1];
      forall k | 0 <= k < |chain| && chain[k].key == key && (forall j :: 0 <= j < k ==> chain[j].key != key)
        ensures Find(chain, key) == Some(chain[k].value)
      {
        assert chain[1..][k - 1] == chain[k];
        assert forall j :: 0 <= j < k - 1 ==> chain[1..][j] == chain[j + 1];
      }
    } else if chain != [] {
      assert chain[0] == Node(key, chain[0].value);
    }
  }

  /** Every node sits in the bucket of its key, and the buckets hold exactly `entries`. */
  ghost predicate Placed<V(!new)>(buckets: seq<seq<Node<V>>>, entries: seq<Node<V>>, capacity: nat)
    requires capacity > 0
  {
    && Filed(buckets, entries, capacity)
    && (forall e :: e in entries ==> Holds(buckets, e, capacity))
  }

  /** The half of placement that says the table holds nothing foreign or misplaced. */
  ghost predicate Filed<V(!new)>(buckets: seq<seq<Node<V>>>, entries: seq<Node<V>>, modulus: nat)
    requires modulus > 0
  {
    forall b, k :: 0 <= b < |buckets| && 0 <= k < |buckets[b]| ==>
      Bucket(buckets[b][k].key, modulus) == b && buckets[b][k] in entries
  }

  ghost predicate Holds<V(!new)>(buckets: seq<seq<Node<V>>>, e: Node<V>, modulus: nat)
    requires modulus > 0
  {
    Bucket(e.key, modulus) < |buckets| && e in buckets[Bucket(e.key, modulus)]
  }

  /** `node` at the head of its bucket. */
  function AtHead<V>(table: seq<seq<Node<V>>>, node: Node<V>, modulus: nat): (r: seq<seq<Node<V>>>)
    requires 0 < modulus <= |table|
    ensures |r| == |table|
  {
    var index := Bucket(node.key, modulus);
    table[index := [node] + table[index]]
  }

  /** A chain relinked into a table, first node first. */
  function Moved<V>(chain: seq<Node<V>>, table: seq<seq<Node<V>>>, modulus: nat): (r: seq<seq<Node<V>>>)
    requires 0 < modulus <= |table|
    ensures |r| == |table|
  {
    if chain == [] then table else Moved(chain[1..], AtHead(table, chain[0], modulus), modulus)
  }

  /** The chains of the first `n` buckets relinked into a table of `length` empty chains. */
  function Relinked<V>(buckets: seq<seq<Node<V>>>, n: nat, length: nat, modulus: nat): (r: seq<seq<Node<V>>>)
    requires n <= |buckets| && 0 < modulus <= length
    ensures |r| == length
  {
    if n == 0 then seq(length, i => []) else Moved(buckets[n - 1], Relinked(buckets, n - 1, length, modulus), modulus)
  }

  /** Walks one chain, relinking each node at the head of its new bucket. */
  method MoveChain<V>(chain: seq<Node<V>>, table: array<seq<Node<V>>>, modulus: nat)
    requires 0 < modulus <= table.Length
    modifies table
    ensures table[..] == Moved(chain, old(table[..]), modulus)
  {
    var node := chain;
    while node != []
      invariant Moved(node, table[..], modulus) == Moved(chain, old(table[..]), modulus)
      decreases |node|
    {
      ghost var was := table[..];
      var index := Bucket(node[0].key, modulus);
      table[index] := [node[0]] + table[index];
      assert table[..] == AtHead(was, node[0], modulus);
      node := node[1..];
    }
  }

  lemma FiledHead<V(!new)>(was: seq<seq<Node<V>>>, entries: seq<Node<V>>, node: Node<V>, modulus: nat)
    requires 0 < modulus <= |was| && Filed(was, entries, modulus) && node in entries
    ensures Filed(AtHead(was, node, modulus), entries, modulus)
    ensures Holds(AtHead(was, node, modulus), node, modulus)
    ensures forall e :: Holds(was, e, modulus) ==> Holds(AtHead(was, node, modulus), e, modulus)
  {
    var index, now := Bucket(node.key, modulus), AtHead(was, node, modulus);
    assert now[index][0] == node;
    forall b, k | 0 <= b < |now| && 0 <= k < |now[b]|
      ensures Bucket(now[b][k].key, modulus) == b && now[b][k] in entries
    {
      if b == index && k > 0 { assert now[b][k] == was[b][k - 1]; }
    }
  }

  class Map<V(!new)> {
    var nodes: array<seq<Node<V>>>
    var size: nat
    ghost var entries: seq<Node<V>>  // everything put, newest first

    ghost predicate Valid()
      reads this, nodes
    {
      && nodes.Length > 0
      && Placed(nodes[..], entries, nodes.Length)
      && size == |entries|
      && 4 * size < 3 * nodes.Length
    }

    /** The finite map the entries stand for when no key was put twice. */
    ghost function Contents(): map<Key, V>
      reads this
    {
      AsMap(entries)
    }

    constructor ()
      ensures Valid() && fresh(nodes) && entries == [] && nodes.Length == 10
    {
      nodes := new seq<Node<V>>[10](i => []);
      size := 0;
      entries := [];
    }

    /** Moves every node to the head of its bucket in a table twice as large. */
    method Rehash()
      requires nodes.Length > 0 && Placed(nodes[..], entries, nodes.Length)
      modifies this`nodes
      ensures fresh(nodes) && nodes.Length == 2 * old(nodes.Length)
      ensures nodes[..] == Relinked(old(nodes[..]), old(nodes.Length), nodes.Length, nodes.Length)
      ensures Placed(nodes[..], entries, nodes.Length)
    {
      var capacity := 2 * nodes.Length;
      nodes := Relink(capacity, capacity);
    }

    /** The two nested loops of rehash and reserve: nodes go to `hash % modulus` in a new table. */
    method Relink(length: nat, modulus: nat) returns (table: array<seq<Node<V>>>)
      requires nodes.Length > 0 && Placed(nodes[..], entries, nodes.Length)
      requires 0 < modulus <= length
      ensures fresh(table) && table.Length == length
      ensures table[..] == Relinked(nodes[..], nodes.Length, length, modulus)
      ensures Placed(table[..], entries, modulus)
    {
      table := new seq<Node<V>>[length](i => []);
      var i := 0;
      while i < nodes.Length
        invariant 0 <= i <= nodes.Length
        invariant fresh(table)
        invariant table[..] == Relinked(nodes[..], i, length, modulus)
      {
        assert nodes[..][i] == nodes[i];
        MoveChain(nodes[i], table, modulus);
        i := i + 1;
      }
      RelinkedHolds(nodes[..], entries, nodes.Length, length, modulus);
    }

    /** Grows the table to `capacity`, hashing with the old capacity. */
    method Reserve(capacity: nat)
      requires Valid()
      modifies this`nodes
      ensures capacity <= old(nodes.Length) ==> nodes == old(nodes)
      ensures capacity > old(nodes.Length) ==>
        fresh(nodes) && nodes[..] == Relinked(old(nodes[..]), old(nodes.Length), capacity, old(nodes.Length))
      ensures 0 < old(nodes.Length) && Placed(nodes[..], entries, old(nodes.Length))
      ensures Valid() <==>
        (capacity > old(nodes.Length) ==>
          forall e :: e in entries ==> Bucket(e.key, old(nodes.Length)) == Bucket(e.key, capacity))
    {
      if capacity <= nodes.Length {
        return;
      }
      ghost var n := nodes.Length;
      nodes := Relink(capacity, nodes.Length);
      PlacedBoth(nodes[..], entries, n, capacity);
    }

    /** Puts a node at the head of its bucket, doubling the table first when it would be 3/4 full. */
    method Put(key: Key, value: V)
      requires Valid()
      modifies this, nodes
      ensures Valid() && (nodes == old(nodes) || fresh(nodes))
      ensures entries == [Node(key, value)] + old(entries)
      ensures var n, was := old(nodes.Length), old(nodes[..]);
        nodes[..] == if 4 * (old(size) + 1) >= 3 * n
                     then AtHead(Relinked(was, n, 2 * n, 2 * n), Node(key, value), 2 * n)
                     else AtHead(was, Node(key, value), n)
      ensures Contents() == old(Contents())[key := value]
      ensures old(Distinct(entries)) && key !in old(Contents()) ==> Distinct(entries)
    {
      if 4 * (size + 1) >= 3 * nodes.Length {
        Rehash();
      }
      var index := Bucket(key, nodes.Length);
      ghost var was := nodes[..];
      nodes[index] := [Node(key, value)] + nodes[index];
      size := size + 1;
      entries := [Node(key, value)] + entries;
      assert nodes[..] == AtHead(was, Node(key, value), nodes.Length);
      PlacedPut(was, old(entries), Node(key, value), nodes.Length);
      if old(Distinct(entries)) && key !in old(Contents()) {
        DistinctPut(old(entries), Node(key, value));
      }
    }

    /** The pointer that `get` returns, or NULL. */
    method Get(key: Key) returns (r: Option<V>)
      requires Valid()
      ensures r == Find(nodes[Bucket(key, nodes.Length)], key)
      ensures r.Some? <==> key in Contents()
      ensures r.Some? ==> Node(key, r.value) in entries
      ensures r.Some? && Distinct(entries) ==> r.value == Contents()[key]
    {
      AsMapKeys(entries);
      FindFinds(nodes[Bucket(key, nodes.Length)], key);
      r := FindNode(key);
      if r.Some? { InContents(entries, key, r.value); }
    }

    /** The walk along the key's chain. */
    method FindNode(key: Key) returns (r: Option<V>)
      requires nodes.Length > 0
      ensures r == Find(nodes[Bucket(key, nodes.Length)], key)
    {
      var node := nodes[Bucket(key, nodes.Length)];
      while node != []
        invariant Find(node, key) == Find(nodes[Bucket(key, nodes.Length)], key)
        decreases |node|
      {
        if node[0].key == key {
          return Some(node[0].value);
        }
        node := node[1..];
      }
      r := None;
    }

    method Contains(key: Key) returns (b: bool)
      requires Valid()
      ensures b <==> key in Contents()
    {
      var r := Get(key);
      b := r.Some?;
    }
  }

  // ---------- what a rehash does to lookups ----------

  /** The value of the last node with the key. */
  function FindLast<V>(chain: seq<Node<V>>, key: Key): Option<V> {
    if chain == [] then None
    else
      var later := FindLast(chain[1..], key);
      if later.Some? then later else if chain[0].key == key then Some(chain[0].value) else None
  }

  lemma {:induction false} FindMoved<V>(chain: seq<Node<V>>, table: seq<seq<Node<V>>>, modulus: nat, key: Key)
    requires 0 < modulus <= |table|
    ensures Find(Moved(chain, table, modulus)[Bucket(key, modulus)], key)
         == if FindLast(chain, key).Some? then FindLast(chain, key) else Find(table[Bucket(key, modulus)], key)
  {
    if chain != [] {
      var t := AtHead(table, chain[0], modulus);
      FindMoved(chain[1..], t, modulus, key);
      var b := Bucket(chain[0].key, modulus);
      assert t[b][1..] == table[b];
    }
  }

  lemma {:induction false} NotElsewhere<V>(chain: seq<Node<V>>, key: Key)
    requires forall k :: 0 <= k < |chain| ==> chain[k].key != key
    ensures FindLast(chain, key) == None
  {
    if chain != [] { NotElsewhere(chain[1..], key); }
  }

  lemma {:induction false} FindRelinked<V(!new)>(
      buckets: seq<seq<Node<V>>>, entries: seq<Node<V>>, n: nat, length: nat, modulus: nat, key: Key)
    requires |buckets| > 0 && Filed(buckets, entries, |buckets|) && n <= |buckets| && 0 < modulus <= length
    ensures var b := Bucket(key, |buckets|);
      Find(Relinked(buckets, n, length, modulus)[Bucket(key, modulus)], key)
      == if b < n then FindLast(buckets[b], key) else None
  {
    if n > 0 {
      FindRelinked(buckets, entries, n - 1, length, modulus, key);
      FindMoved(buckets[n - 1], Relinked(buckets, n - 1, length, modulus), modulus, key);
      if Bucket(key, |buckets|) != n - 1 { NotElsewhere(buckets[n - 1], key); }
    }
  }

  /** A rehash turns every chain around, so a lookup survives it iff the first and the last node
      with the key carry the same value. */
  lemma RehashKeepsLookupIff<V(!new)>(buckets: seq<seq<Node<V>>>, entries: seq<Node<V>>, key: Key)
    requires |buckets| > 0 && Filed(buckets, entries, |buckets|)
    ensures var n := |buckets|;
      var chain := buckets[Bucket(key, n)];
      Find(Relinked(buckets, n, 2 * n, 2 * n)[Bucket(key, 2 * n)], key) == Find(chain, key)
      <==> FindLast(chain, key) == Find(chain, key)
  {
    FindRelinked(buckets, entries, |buckets|, 2 * |buckets|, 2 * |buckets|, key);
  }

  /** Any map with room for two more nodes and a key that is not in it: put twice, the key has its
      newer value before the next rehash and its older value after it. */
  method OlderValueReturns<V(!new)>(m: Map<V>, key: Key, older: V, newer: V)
      returns (before: Option<V>, after: Option<V>)
    requires m.Valid() && key !in m.Contents() && 4 * (m.size + 2) < 3 * m.nodes.Length
    modifies m, m.nodes
    ensures before == Some(newer) && after == Some(older)
    ensures m.nodes.Length == 2 * old(m.nodes.Length) && m.size == old(m.size) + 2
    ensures m.entries == [Node(key, newer), Node(key, older)] + old(m.entries)
    ensures Placed(m.nodes[..], m.entries, m.nodes.Length)
    ensures after == Find(m.nodes[Bucket(key, m.nodes.Length)], key)
    ensures var n, was := old(m.nodes.Length), old(m.nodes[..]);
      var twice := AtHead(AtHead(was, Node(key, older), n), Node(key, newer), n);
      before == Find(twice[Bucket(key, n)], key) && m.nodes[..] == Relinked(twice, n, 2 * n, 2 * n)
  {
    PutTwice(m, key, older, newer);
    before := m.FindNode(key);
    FindRelinked(m.nodes[..], m.entries, m.nodes.Length, 2 * m.nodes.Length, 2 * m.nodes.Length, key);
    m.Rehash();
    after := m.FindNode(key);
  }

  method PutTwice<V(!new)>(m: Map<V>, key: Key, older: V, newer: V)
    requires m.Valid() && key !in m.Contents() && 4 * (m.size + 2) < 3 * m.nodes.Length
    modifies m, m.nodes
    ensures m.Valid() && m.nodes.Length == old(m.nodes.Length) && m.size == old(m.size) + 2
    ensures m.entries == [Node(key, newer), Node(key, older)] + old(m.entries)
    ensures var n := old(m.nodes.Length);
      m.nodes[..] == AtHead(AtHead(old(m.nodes[..]), Node(key, older), n), Node(key, newer), n)
    ensures var chain := m.nodes[Bucket(key, m.nodes.Length)];
      Find(chain, key) == Some(newer) && FindLast(chain, key) == Some(older)
  {
    ghost var chain := m.nodes[..][Bucket(key, m.nodes.Length)];
    KeyNotInChain(m, key);
    TwiceInChain(chain, key, older, newer);
    PutWithRoom(m, key, older);
    assert m.nodes[..][Bucket(key, m.nodes.Length)] == [Node(key, older)] + chain;
    PutWithRoom(m, key, newer);
    assert m.nodes[..][Bucket(key, m.nodes.Length)] == [Node(key, newer)] + ([Node(key, older)] + chain);
  }

  method PutWithRoom<V(!new)>(m: Map<V>, key: Key, value: V)
    requires m.Valid() && 4 * (m.size + 1) < 3 * m.nodes.Length
    modifies m, m.nodes
    ensures m.Valid() && m.size == old(m.size) + 1 && (m.nodes == old(m.nodes) || fresh(m.nodes))
    ensures m.nodes.Length == old(m.nodes.Length) && m.entries == [Node(key, value)] + old(m.entries)
    ensures m.nodes[..] == AtHead(old(m.nodes[..]), Node(key, value), old(m.nodes.Length))
  {
    m.Put(key, value);
    assert |m.nodes[..]| == old(m.nodes.Length);
  }

  lemma KeyNotInChain<V(!new)>(m: Map<V>, key: Key)
    requires m.Valid() && key !in m.Contents()
    ensures forall k :: 0 <= k < |m.nodes[Bucket(key, m.nodes.Length)]| ==>
      m.nodes[Bucket(key, m.nodes.Length)][k].key != key
  {
    AsMapKeys(m.entries);
    var chain := m.nodes[..][Bucket(key, m.nodes.Length)];
    forall k | 0 <= k < |chain|
      ensures chain[k].key != key
    {
      var e := chain[k];
      assert e in m.entries;
    }
  }

  lemma TwiceInChain<V>(chain: seq<Node<V>>, key: Key, older: V, newer: V)
    requires forall k :: 0 <= k < |chain| ==> chain[k].key != key
    ensures var c := [Node(key, newer)] + ([Node(key, older)] + chain);
      Find(c, key) == Some(newer) && FindLast(c, key) == Some(older)
  {
    var c := [Node(key, newer)] + ([Node(key, older)] + chain);
    NotElsewhere(chain, key);
    assert c[1..][1..] == chain;
    assert FindLast(c[1..], key) == Some(older);
  }

  // ---------- entries as a map ----------

  function AsMap<V>(entries: seq<Node<V>>): map<Key, V> {
    if entries == [] then map[] else AsMap(entries[1..])[entries[0].key := entries[0].value]
  }

  ghost predicate Distinct<V>(entries: seq<Node<V>>) {
    forall i, j :: 0 <= i < j < |entries| ==> entries[i].key != entries[j].key
  }

  lemma {:induction false} AsMapKeys<V>(entries: seq<Node<V>>)
    ensures forall k :: 0 <= k < |entries| ==> entries[k].key in AsMap(entries)
    ensures forall key :: key in AsMap(entries) ==> Node(key, AsMap(entries)[key]) in entries
  {
    if entries != [] {
      AsMapKeys(entries[1..]);
      forall k | 0 <= k < |entries|
        ensures entries[k].key in AsMap(entries)
      {
        if k > 0 { assert entries[k] == entries[1..][k - 1]; }
      }
      assert entries[0] == Node(entries[0].key, entries[0].value);
    }
  }

  lemma {:induction false} InContents<V>(entries: seq<Node<V>>, key: Key, value: V)
    requires Node(key, value) in entries
    ensures key in AsMap(entries)
    ensures Distinct(entries) ==> AsMap(entries)[key] == value
  {
    AsMapKeys(entries);
    var i :| 0 <= i < |entries| && entries[i] == Node(key, value);
    var j :| 0 <= j < |entries| && entries[j] == Node(key, AsMap(entries)[key]);
    assert Distinct(entries) ==> i == j by {
      assert entries[i].key == entries[j].key;
    }
  }

  /** Distinct keys stay distinct as long as only new keys are put. */
  lemma DistinctPut<V>(entries: seq<Node<V>>, node: Node<V>)
    requires Distinct(entries) && node.key !in AsMap(entries)
    ensures Distinct([node] + entries)
  {
    AsMapKeys(entries);
    var e := [node] + entries;
    forall i, j | 0 <= i < j < |e|
      ensures e[i].key != e[j].key
    {
      assert e[j] == entries[j - 1];
      if i > 0 { assert e[i] == entries[i - 1]; }
    }
  }

  // ---------- placement ----------

  /** Relinking a chain loses nothing and files every node by the new modulus. */
  lemma {:induction false} MovedHolds<V(!new)>(
      chain: seq<Node<V>>, table: seq<seq<Node<V>>>, entries: seq<Node<V>>, modulus: nat)
    requires 0 < modulus <= |table| && Filed(table, entries, modulus)
    requires forall k :: 0 <= k < |chain| ==> chain[k] in entries
    ensures Filed(Moved(chain, table, modulus), entries, modulus)
    ensures forall e :: Holds(table, e, modulus) || e in chain ==> Holds(Moved(chain, table, modulus), e, modulus)
  {
    if chain != [] {
      FiledHead(table, entries, chain[0], modulus);
      MovedHolds(chain[1..], AtHead(table, chain[0], modulus), entries, modulus);
    }
  }

  lemma {:induction false} RelinkedHolds<V(!new)>(
      buckets: seq<seq<Node<V>>>, entries: seq<Node<V>>, n: nat, length: nat, modulus: nat)
    requires |buckets| > 0 && Placed(buckets, entries, |buckets|) && n <= |buckets| && 0 < modulus <= length
    ensures Filed(Relinked(buckets, n, length, modulus), entries, modulus)
    ensures forall e :: e in entries && Bucket(e.key, |buckets|) < n ==>
      Holds(Relinked(buckets, n, length, modulus), e, modulus)
  {
    if n > 0 {
      var table := Relinked(buckets, n - 1, length, modulus);
      RelinkedHolds(buckets, entries, n - 1, length, modulus);
      MovedHolds(buckets[n - 1], table, entries, modulus);
      forall e | e in entries && Bucket(e.key, |buckets|) < n
        ensures Holds(table, e, modulus) || e in buckets[n - 1]
      {
        assert Holds(buckets, e, |buckets|);
      }
    }
  }

  lemma PlacedPut<V(!new)>(was: seq<seq<Node<V>>>, entries: seq<Node<V>>, node: Node<V>, capacity: nat)
    requires capacity > 0 && |was| == capacity && Placed(was, entries, capacity)
    ensures Placed(AtHead(was, node, capacity), [node] + entries, capacity)
  {
    assert Filed(was, [node] + entries, capacity);
    FiledHead(was, [node] + entries, node, capacity);
    forall e | e in [node] + entries
      ensures Holds(AtHead(was, node, capacity), e, capacity)
    {
      assert e == node || Holds(was, e, capacity);
    }
  }

  /** A table filled by one modulus is also correctly filled for another exactly when the two agree
      on every stored key. */
  lemma PlacedBoth<V(!new)>(buckets: seq<seq<Node<V>>>, entries: seq<Node<V>>, a: nat, b: nat)
    requires a > 0 && b > 0 && |buckets| == b && a <= b && Placed(buckets, entries, a)
    ensures Placed(buckets, entries, b) <==> forall e :: e in entries ==> Bucket(e.key, a) == Bucket(e.key, b)
  {
    if forall e :: e in entries ==> Bucket(e.key, a) == Bucket(e.key, b) {
      assert Placed(buckets, entries, b);
    } else {
      var e :| e in entries && Bucket(e.key, a) != Bucket(e.key, b);
      assert e in buckets[Bucket(e.key, a)];
    }
  }
}
