/**
 * The chained hash table of src/storage/hash_table.cpp: an array of linked chains changed in place.
 * `chains` is its value in the sense of module Buckets; `spine` names the linked nodes.
 */
module HashTables {
  import opened Entries
  import opened Buckets

  lemma PutNewHead(h: Hash, t: Table, k: string, e: Entry)
    requires WellFormed(h, t) && !Has(h, t, k)
    ensures WellFormed(h, Put(h, t, k, e)) && Size(Put(h, t, k, e)) == Size(t) + 1
    ensures var b := Home(h, |t|, k); Put(h, t, k, e) == t[b := [Binding(k, e)] + t[b]]
  {
    PutRefines(h, t, k, e);
  }

  lemma PutInPlace(h: Hash, t: Table, k: string, e: Entry)
    requires WellFormed(h, t) && Has(h, t, k)
    ensures WellFormed(h, Put(h, t, k, e)) && Size(Put(h, t, k, e)) == Size(t)
    ensures var b := Home(h, |t|, k); Put(h, t, k, e) == t[b := t[b][IndexOf(t[b], k) := Binding(k, e)]]
  {
    PutRefines(h, t, k, e);
  }

  lemma EraseShape(h: Hash, t: Table, k: string)
    requires WellFormed(h, t) && Has(h, t, k)
    ensures WellFormed(h, Erase(h, t, k)) && Size(Erase(h, t, k)) == Size(t) - 1
    ensures var b, c := Home(h, |t|, k), t[Home(h, |t|, k)];
            Erase(h, t, k) == t[b := c[..IndexOf(c, k)] + c[IndexOf(c, k) + 1..]]
    ensures var c := t[Home(h, |t|, k)]; IndexOf(c, k) == 0 ==> c[..0] + c[1..] == c[1..]
  {
    EraseRefines(h, t, k);
  }

  class Node {
    var key: string
    var entry: Entry
    var next: Node?

    constructor (key: string, entry: Entry, next: Node?)
      ensures this.key == key && this.entry == entry && this.next == next
    {
      this.key, this.entry, this.next := key, entry, next;
    }
  }

  function At(nodes: seq<Node>, i: nat): Node? {
    if i < |nodes| then nodes[i] else null
  }

  /** From `head` the nodes `nodes` are linked in order and hold exactly the bindings of `chain`. */
  ghost predicate Links(head: Node?, nodes: seq<Node>, chain: Chain)
    reads nodes
  {
    && |nodes| == |chain|
    && head == At(nodes, 0)
    && (forall i :: 0 <= i < |nodes| ==> nodes[i].key == chain[i].key && nodes[i].entry == chain[i].entry)
    && (forall i {:trigger nodes[i].next} :: 0 <= i < |nodes| ==> nodes[i].next == At(nodes, i + 1))
  }

  lemma LinksCons(node: Node, nodes: seq<Node>, chain: Chain)
    requires Links(node.next, nodes, chain)
    ensures Links(node, [node] + nodes, [Binding(node.key, node.entry)] + chain)
  {
    var all := [node] + nodes;
    forall i {:trigger all[i].next} | 0 <= i < |all| ensures all[i].next == At(all, i + 1) {
      assert i > 0 ==> all[i] == nodes[i - 1];
    }
  }

  lemma LinksTail(node: Node, nodes: seq<Node>, chain: Chain)
    requires Links(node, nodes, chain)
    ensures Links(node.next, nodes[1..], chain[1..])
  {
    assert nodes[0].next == At(nodes, 1);
    forall i {:trigger nodes[1..][i].next} | 0 <= i < |nodes[1..]| ensures nodes[1..][i].next == At(nodes[1..], i + 1) {
      assert nodes[1..][i] == nodes[i + 1];
    }
  }

  /** `nodes[at]` is linked around: the other links are in place. */
  lemma LinksSkip(head: Node?, nodes: seq<Node>, chain: Chain, at: nat)
    requires |nodes| == |chain| && 0 < at < |nodes| && head == nodes[0]
    requires forall i :: 0 <= i < |nodes| ==> nodes[i].key == chain[i].key && nodes[i].entry == chain[i].entry
    requires forall i {:trigger nodes[i].next} :: 0 <= i < |nodes| ==>
               nodes[i].next == At(nodes, if i == at - 1 then at + 1 else i + 1)
    ensures Links(head, nodes[..at] + nodes[at + 1..], chain[..at] + chain[at + 1..])
  {
    var rest := nodes[..at] + nodes[at + 1..];
    forall i {:trigger rest[i].next} | 0 <= i < |rest| ensures rest[i].next == At(rest, i + 1) {
      assert rest[i] == nodes[if i < at then i else i + 1];
    }
  }

  ghost function NodesOf(spine: seq<seq<Node>>): set<Node> {
    set b, i | 0 <= b < |spine| && 0 <= i < |spine[b]| :: spine[b][i]
  }

  ghost predicate AllLinked(heads: seq<Node?>, spine: seq<seq<Node>>, chains: Table)
    reads NodesOf(spine)
  {
    && |heads| == |spine| == |chains|
    && forall b {:trigger Links(heads[b], spine[b], chains[b])} :: 0 <= b < |spine| ==>
         Links(heads[b], spine[b], chains[b])
  }

  /** A node that points at the head of bucket `b` becomes its new head. */
  lemma AllLinkedCons(heads: seq<Node?>, spine: seq<seq<Node>>, chains: Table, b: nat, node: Node)
    requires AllLinked(heads, spine, chains) && b < |heads| && node.next == heads[b]
    ensures AllLinked(heads[b := node], spine[b := [node] + spine[b]],
                      chains[b := [Binding(node.key, node.entry)] + chains[b]])
    ensures NodesOf(spine[b := [node] + spine[b]]) <= NodesOf(spine) + {node}
  {
    LinksCons(node, spine[b], chains[b]);
  }

  /** The head of bucket `b` is dropped. */
  lemma AllLinkedTail(heads: seq<Node?>, spine: seq<seq<Node>>, chains: Table, b: nat, node: Node)
    requires AllLinked(heads, spine, chains) && b < |heads| && |spine[b]| > 0 && node == spine[b][0]
    ensures |chains[b]| > 0
    ensures AllLinked(heads[b := node.next], spine[b := spine[b][1..]], chains[b := chains[b][1..]])
    ensures NodesOf(spine[b := spine[b][1..]]) <= NodesOf(spine)
  {
    forall c | 0 <= c < |spine| ensures Links(heads[c], spine[c], chains[c]) {
    }
    LinksTail(node, spine[b], chains[b]);
  }

  class HashTable {
    const hash: Hash
    var buckets: array<Node?>
    var size: nat
    ghost var spine: seq<seq<Node>>
    ghost var chains: Table
    ghost var Repr: set<object>

    /** The linked nodes hold `chains`. */
    ghost predicate Shape()
      reads this, Repr
    {
      && this in Repr && buckets in Repr && NodesOf(spine) <= Repr
      && |spine| == |chains| == buckets.Length
      && AllLinked(buckets[..], spine, chains)
    }

    /** Everything but the load bound, which `Insert` breaks for the moment before it rehashes. */
    ghost predicate Linked()
      reads this, Repr
    {
      Shape() && WellFormed(hash, chains) && size == Size(chains)
    }

    ghost predicate Valid()
      reads this, Repr
      ensures Valid() ==> this in Repr
    {
      Linked() && Balanced(chains)
    }

    constructor (hash: Hash, bucketCount: nat)
      ensures Valid() && fresh(Repr)
      ensures this.hash == hash
      ensures chains == Empty(if bucketCount < 16 then 16 else bucketCount)
    {
      var n := if bucketCount < MIN_BUCKETS then MIN_BUCKETS else bucketCount;
      this.hash := hash;
      buckets := new Node?[n](_ => null);
      size := 0;
      spine := seq(n, _ => []);
      chains := Empty(n);
      new;
      Repr := {this, buckets};
      EmptyIsEmpty(hash, n);
    }

    /** One node never serves two places of the table. */
    lemma NodeApart(b: nat, i: nat)
      requires Linked() && b < |spine| && i < |spine[b]|
      ensures forall c, j :: 0 <= c < |spine| && 0 <= j < |spine[c]| && spine[c][j] == spine[b][i] ==> c == b && j == i
    {
      assert Links(buckets[..][b], spine[b], chains[b]);
      LookupAt(hash, chains, b, i);
      forall c, j | 0 <= c < |spine| && 0 <= j < |spine[c]| && spine[c][j] == spine[b][i] ensures c == b && j == i {
        assert Links(buckets[..][c], spine[c], chains[c]);
        LookupAt(hash, chains, c, j);
      }
    }

    /** Walks the key's chain: its bucket, its index there, and the node with its predecessor. */
    method Locate(key: string) returns (idx: nat, prev: Node?, current: Node?, ghost at: nat)
      requires Linked()
      ensures idx == hash(key) % |chains|
      ensures idx == Home(hash, |chains|, key) && at == IndexOf(chains[idx], key) && |spine[idx]| == |chains[idx]|
      ensures current == At(spine[idx], at) && (current != null <==> Has(hash, chains, key))
      ensures current != null ==> current.entry == chains[idx][at].entry
      ensures prev == if at == 0 then null else spine[idx][at - 1]
    {
      idx := hash(key) % buckets.Length;
      assert Links(buckets[..][idx], spine[idx], chains[idx]);
      prev, current, at := null, buckets[idx], 0;
      while current != null && current.key != key
        invariant at <= |spine[idx]| && current == At(spine[idx], at)
        invariant prev == if at == 0 then null else spine[idx][at - 1]
        invariant forall j :: 0 <= j < at ==> chains[idx][j].key != key
        decreases |spine[idx]| - at
      {
        prev, current, at := current, current.next, at + 1;
      }
      if current != null {
        IndexOfUnique(chains[idx], key, at);
      } else {
        IndexOfAbsent(chains[idx], key);
      }
    }

    method Insert(key: string, entry: Entry) returns (added: bool)
      requires Valid()
      modifies Repr
      ensures Valid() && fresh(Repr - old(Repr))
      ensures chains == Buckets.Insert(hash, old(chains), key, entry)
      ensures added == !Has(hash, old(chains), key)
      decreases if 4 * (size + 1) > 3 * buckets.Length then 3 else 1
    {
      var idx, _, current, at := Locate(key);
      if current != null {
        PutInPlace(hash, chains, key, entry);
        NodeApart(idx, at);
        Overwrite(current, entry, idx, at);
        return false;
      }
      PutNewHead(hash, chains, key, entry);
      LinkHead(key, entry, idx);
      RehashIfNeeded();
      return true;
    }

    /** `current->entry = entry` */
    method Overwrite(current: Node, entry: Entry, ghost b: nat, ghost i: nat)
      requires Shape() && b < |spine| && i < |spine[b]| == |chains[b]| && current == spine[b][i]
      requires forall c, j :: 0 <= c < |spine| && 0 <= j < |spine[c]| && spine[c][j] == current ==> c == b && j == i
      modifies Repr
      ensures Shape() && Repr == old(Repr) && buckets == old(buckets) && size == old(size)
      ensures chains == old(chains)[b := old(chains)[b][i := Binding(old(chains)[b][i].key, entry)]]
    {
      forall c | 0 <= c < |spine| ensures Links(buckets[..][c], spine[c], chains[c]) {
      }
      current.entry := entry;
      chains := chains[b := chains[b][i := Binding(chains[b][i].key, entry)]];
    }

    /** Links a new node in front of bucket `idx`. */
    method LinkHead(key: string, entry: Entry, idx: nat)
      requires Shape() && idx < |spine|
      modifies Repr
      ensures Shape() && fresh(Repr - old(Repr)) && buckets == old(buckets) && size == old(size) + 1
      ensures chains == old(chains)[idx := [Binding(key, entry)] + old(chains)[idx]]
    {
      ghost var heads := buckets[..];
      var node := new Node(key, entry, buckets[idx]);
      AllLinkedCons(heads, spine, chains, idx, node);
      spine := spine[idx := [node] + spine[idx]];
      chains := chains[idx := [Binding(key, entry)] + chains[idx]];
      Repr := Repr + {node};
      buckets[idx] := node;
      size := size + 1;
      assert buckets[..] == heads[idx := node];
    }

    method RehashIfNeeded()
      requires Linked() && 4 * size <= 3 * buckets.Length + 4
      modifies Repr
      ensures Valid() && fresh(Repr - old(Repr))
      ensures chains == if Balanced(old(chains)) then old(chains) else Grow(hash, old(chains))
      decreases if 4 * size > 3 * buckets.Length then 2 else 0
    {
      if 4 * size <= 3 * buckets.Length {
        return;
      }
      Double();
    }

    /** Moves every binding into twice as many buckets, which hold them without growing again. */
    method Double()
      requires Shape() && buckets.Length >= MIN_BUCKETS && 4 * Size(chains) <= 6 * buckets.Length
      modifies Repr
      ensures Valid() && fresh(Repr - old(Repr))
      ensures chains == Grow(hash, old(chains))
      decreases 2, 2
    {
      var former := buckets;
      ghost var nodes, was := spine, chains;
      StartOver(2 * former.Length);
      Refill(former, nodes, was);
    }

    /** A new array of `n` empty buckets. */
    method StartOver(n: nat)
      requires n >= MIN_BUCKETS
      modifies this
      ensures Valid() && Repr == {this, buckets} && fresh(buckets)
      ensures chains == Empty(n) && size == 0 && buckets.Length == n
    {
      EmptyIsEmpty(hash, n);
      buckets := new Node?[n](_ => null);
      size := 0;
      spine, chains, Repr := seq(n, _ => []), Empty(n), {this, buckets};
    }

    /** Inserts the bindings of the former buckets, bucket by bucket. */
    method Refill(former: array<Node?>, ghost nodes: seq<seq<Node>>, ghost was: Table)
      requires Valid() && size == 0 && chains == Empty(buckets.Length) && 4 * Size(was) <= 3 * buckets.Length
      requires former !in Repr && NodesOf(nodes) !! Repr
      requires AllLinked(former[..], nodes, was)
      modifies Repr
      ensures Valid() && fresh(Repr - old(Repr))
      ensures chains == PutAll(hash, Empty(old(buckets.Length)), Flatten(was))
      decreases 2, 1
    {
      ghost var start := chains;
      for b := 0 to former.Length
        invariant Valid() && fresh(Repr - old(Repr)) && buckets.Length == |start|
        invariant former !in Repr && NodesOf(nodes) !! Repr && AllLinked(former[..], nodes, was)
        invariant chains == PutAll(hash, start, Flatten(was[..b])) && size <= Size(was[..b])
      {
        FlattenPrefix(was, b);
        PutAllConcat(hash, start, Flatten(was[..b]), was[b]);
        MoveChain(former[b], nodes[b], was[b]);
      }
      assert was[..former.Length] == was;
    }

    method MoveChain(head: Node?, ghost nodes: seq<Node>, ghost chain: Chain)
      requires Valid() && 4 * (size + |chain|) <= 3 * buckets.Length
      requires Links(head, nodes, chain) && forall i :: 0 <= i < |nodes| ==> nodes[i] !in Repr
      modifies Repr
      ensures Valid() && fresh(Repr - old(Repr)) && buckets.Length == old(buckets.Length)
      ensures chains == PutAll(hash, old(chains), chain) && size <= old(size) + |chain|
      decreases 2, 0
    {
      var current := head;
      ghost var i := 0;
      while current != null
        invariant Valid() && fresh(Repr - old(Repr)) && buckets.Length == old(buckets.Length)
        invariant i <= |nodes| && current == At(nodes, i)
        invariant Links(head, nodes, chain) && forall j :: 0 <= j < |nodes| ==> nodes[j] !in Repr
        invariant chains == PutAll(hash, old(chains), chain[..i]) && size <= old(size) + i
        decreases |nodes| - i
      {
        InsertWithRoom(hash, chains, current.key, current.entry);
        assert chain[..i + 1][..i] == chain[..i];
        var next := current.next;
        var _ := Insert(current.key, current.entry);
        current, i := next, i + 1;
      }
      assert chain[..i] == chain;
    }

    method Find(key: string) returns (found: Option<Entry>)
      requires Valid()
      ensures found == Lookup(hash, chains, key)
    {
      var _, _, current, _ := Locate(key);
      if current != null {
        return Some(current.entry);
      }
      return None;
    }

    method Contains(key: string) returns (found: bool)
      requires Valid()
      ensures found == Has(hash, chains, key)
    {
      var entry := Find(key);
      return entry.Some?;
    }

    method Erase(key: string) returns (erased: bool)
      requires Valid()
      modifies Repr
      ensures Valid() && Repr == old(Repr)
      ensures chains == Buckets.Erase(hash, old(chains), key)
      ensures erased == Has(hash, old(chains), key)
    {
      var idx, prev, current, at := Locate(key);
      if current == null {
        return false;
      }
      EraseShape(hash, chains, key);
      if prev != null {
        NodeApart(idx, at - 1);
        UnlinkAfter(prev, current, idx, at);
      } else {
        UnlinkHead(current, idx);
      }
      return true;
    }

    /** `buckets_[idx] = current->next` */
    method UnlinkHead(current: Node, idx: nat)
      requires Shape() && idx < |spine| && |spine[idx]| == |chains[idx]| > 0 && current == spine[idx][0]
      modifies Repr
      ensures Shape() && Repr == old(Repr) && size == old(size) - 1
      requires size > 0
      ensures chains == old(chains)[idx := old(chains)[idx][1..]]
    {
      ghost var heads := buckets[..];
      AllLinkedTail(heads, spine, chains, idx, current);
      buckets[idx] := current.next;
      spine := spine[idx := spine[idx][1..]];
      chains := chains[idx := chains[idx][1..]];
      size := size - 1;
      assert buckets[..] == heads[idx := current.next];
    }

    /** `prev->next = current->next` */
    method UnlinkAfter(prev: Node, current: Node, ghost idx: nat, ghost at: nat)
      requires Shape() && idx < |spine| && 0 < at < |spine[idx]| == |chains[idx]| && size > 0
      requires prev == spine[idx][at - 1] && current == spine[idx][at]
      requires forall c, j :: 0 <= c < |spine| && 0 <= j < |spine[c]| && spine[c][j] == prev ==> c == idx && j == at - 1
      modifies Repr
      ensures Shape() && Repr == old(Repr) && size == old(size) - 1
      ensures chains == old(chains)[idx := old(chains)[idx][..at] + old(chains)[idx][at + 1..]]
    {
      forall c | 0 <= c < |spine| ensures Links(buckets[..][c], spine[c], chains[c]) {
      }
      prev.next := current.next;
      ghost var nodes := spine[idx];
      LinksSkip(buckets[idx], nodes, chains[idx], at);
      spine := spine[idx := nodes[..at] + nodes[at + 1..]];
      chains := chains[idx := chains[idx][..at] + chains[idx][at + 1..]];
      size := size - 1;
    }

    method Clear()
      requires Valid()
      modifies Repr
      ensures Valid() && Repr == old(Repr)
      ensures chains == Empty(|old(chains)|)
    {
      EmptyIsEmpty(hash, buckets.Length);
      for b := 0 to buckets.Length
        invariant buckets == old(buckets) && Repr == old(Repr) && buckets in Repr && this in Repr
        invariant forall c :: 0 <= c < b ==> buckets[c] == null
        modifies buckets
      {
        buckets[b] := null;
      }
      spine, chains := seq(buckets.Length, _ => []), Empty(buckets.Length);
      size := 0;
    }

    /** `for_each`: the bindings in the order the callback receives them. */
    method ForEach() returns (visited: seq<Binding>)
      requires Valid()
      ensures visited == Flatten(chains)
    {
      visited := [];
      for b := 0 to buckets.Length
        invariant visited == Flatten(chains[..b])
      {
        var chain := ForEachBucket(b);
        FlattenPrefix(chains, b);
        visited := visited + chain;
      }
      assert chains[..buckets.Length] == chains;
    }

    /** `for_each_bucket`: the bindings of one bucket, each at the index passed to the callback. */
    method ForEachBucket(b: nat) returns (visited: seq<Binding>)
      requires Valid()
      ensures visited == if b < |chains| then chains[b] else []
    {
      visited := [];
      if b >= buckets.Length {
        return;
      }
      assert Links(buckets[..][b], spine[b], chains[b]);
      var current := buckets[b];
      while current != null
        invariant |visited| <= |spine[b]| && current == At(spine[b], |visited|)
        invariant visited == chains[b][..|visited|]
        decreases |spine[b]| - |visited|
      {
        visited := visited + [Binding(current.key, current.entry)];
        current := current.next;
      }
    }
  }
}
