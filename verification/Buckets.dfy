/** Values the store holds: what a key maps to, and one link of a bucket chain. */
module Entries {
  datatype Option<+T> = None | Some(value: T)

  /** A stored value with its optional deadline, in clock ticks. */
  datatype Entry = Entry(value: string, expiresAt: Option<int>)

  datatype Binding = Binding(key: string, entry: Entry)

  /** Last binding of each key wins: what storing the bindings one after another leaves behind. */
  function MapOf(s: seq<Binding>): map<string, Entry> {
    if s == [] then map[]
    else MapOf(s[..|s| - 1])[s[|s| - 1].key := s[|s| - 1].entry]
  }

  ghost predicate DistinctKeys(s: seq<Binding>) {
    forall i, j :: 0 <= i < j < |s| ==> s[i].key != s[j].key
  }

  lemma {:induction false} MapOfAbsent(s: seq<Binding>, k: string)
    requires forall i :: 0 <= i < |s| ==> s[i].key != k
    ensures k !in MapOf(s)
  {
    if s != [] {
      MapOfAbsent(s[..|s| - 1], k);
    }
  }

  lemma {:induction false} MapOfAt(s: seq<Binding>, i: nat)
    requires DistinctKeys(s) && i < |s|
    ensures s[i].key in MapOf(s) && MapOf(s)[s[i].key] == s[i].entry
  {
    if i < |s| - 1 {
      MapOfAt(s[..|s| - 1], i);
    }
  }

  lemma {:induction false} MapOfFrom(s: seq<Binding>, k: string)
    requires k in MapOf(s)
    ensures Binding(k, MapOf(s)[k]) in s
  {
    if k != s[|s| - 1].key {
      MapOfFrom(s[..|s| - 1], k);
    }
  }

  lemma {:induction false} MapOfSize(s: seq<Binding>)
    requires DistinctKeys(s)
    ensures |MapOf(s)| == |s|
  {
    if s != [] {
      MapOfSize(s[..|s| - 1]);
      MapOfAbsent(s[..|s| - 1], s[|s| - 1].key);
    }
  }

  /** Distinct keys make MapOf an exact picture of the list: same bindings, same count. */
  lemma MapOfDistinct(s: seq<Binding>)
    requires DistinctKeys(s)
    ensures |MapOf(s)| == |s|
    ensures forall k :: k in MapOf(s) ==> Binding(k, MapOf(s)[k]) in s
    ensures forall x :: x in s ==> x.key in MapOf(s) && MapOf(s)[x.key] == x.entry
  {
    MapOfSize(s);
    forall k | k in MapOf(s) ensures Binding(k, MapOf(s)[k]) in s { MapOfFrom(s, k); }
    forall i | 0 <= i < |s| ensures s[i].key in MapOf(s) && MapOf(s)[s[i].key] == s[i].entry { MapOfAt(s, i); }
  }
}

/**
 * The chained table as a value: a sequence of chains, the head of each chain first.
 * Every definition takes an arbitrary hash function, so what is proved holds for each of them.
 */
module Buckets {
  import opened Entries

  type Hash = string -> nat
  type Chain = seq<Binding>
  type Table = seq<Chain>

  const MIN_BUCKETS := 16

  function Home(h: Hash, n: nat, k: string): (b: nat)
    requires n > 0
    ensures b < n
  {
    h(k) % n
  }

  /** Index of the first link of `c` that holds `k`, or |c|. */
  function IndexOf(c: Chain, k: string): (i: nat)
    ensures i <= |c|
    ensures i < |c| ==> c[i].key == k
    ensures forall j :: 0 <= j < i ==> c[j].key != k
  {
    if c == [] || c[0].key == k then 0 else 1 + IndexOf(c[1..], k)
  }

  function Find(c: Chain, k: string): Option<Entry> {
    var i := IndexOf(c, k);
    if i < |c| then Some(c[i].entry) else None
  }

  /** Overwrite the key where it is, or link a new head. */
  function ChainPut(c: Chain, k: string, e: Entry): Chain {
    var i := IndexOf(c, k);
    if i < |c| then c[i := Binding(k, e)] else [Binding(k, e)] + c
  }

  function ChainErase(c: Chain, k: string): Chain {
    var i := IndexOf(c, k);
    if i < |c| then c[..i] + c[i + 1..] else c
  }

  function Lookup(h: Hash, t: Table, k: string): Option<Entry> {
    if t == [] then None else Find(t[Home(h, |t|, k)], k)
  }

  predicate Has(h: Hash, t: Table, k: string) {
    Lookup(h, t, k).Some?
  }

  /** All bindings in the order a full walk visits them. */
  function Flatten(t: Table): seq<Binding> {
    if t == [] then [] else Flatten(t[..|t| - 1]) + t[|t| - 1]
  }

  /** The finite map a table stands for. */
  function Contents(t: Table): map<string, Entry> {
    MapOf(Flatten(t))
  }

  function Size(t: Table): nat {
    |Flatten(t)|
  }

  /** Chain `c` may be bucket `b` of `n`: its keys belong there and none occurs twice. */
  ghost predicate GoodChain(h: Hash, n: nat, b: nat, c: Chain)
    requires n > 0
  {
    DistinctKeys(c) && forall i :: 0 <= i < |c| ==> Home(h, n, c[i].key) == b
  }

  /** `t` may be the first |t| buckets of `n`. */
  ghost predicate Placed(h: Hash, n: nat, t: Table) {
    && 0 < n && |t| <= n
    && forall b {:trigger GoodChain(h, n, b, t[b])} :: 0 <= b < |t| ==> GoodChain(h, n, b, t[b])
  }

  ghost predicate WellFormed(h: Hash, t: Table) {
    |t| >= MIN_BUCKETS && Placed(h, |t|, t)
  }

  /** The exact form of the load-factor test: size / buckets <= 3/4. */
  predicate Balanced(t: Table) {
    4 * Size(t) <= 3 * |t|
  }

  function Empty(n: nat): Table {
    seq(n, _ => [])
  }

  function Put(h: Hash, t: Table, k: string, e: Entry): (r: Table)
    requires t != []
    ensures |r| == |t|
  {
    var b := Home(h, |t|, k);
    t[b := ChainPut(t[b], k, e)]
  }

  function PutAll(h: Hash, t: Table, s: seq<Binding>): (r: Table)
    requires t != []
    ensures |r| == |t|
  {
    if s == [] then t
    else Put(h, PutAll(h, t, s[..|s| - 1]), s[|s| - 1].key, s[|s| - 1].entry)
  }

  /** A table of twice as many buckets, refilled in walk order. */
  function Grow(h: Hash, t: Table): Table
    requires t != []
  {
    PutAll(h, Empty(2 * |t|), Flatten(t))
  }

  function Insert(h: Hash, t: Table, k: string, e: Entry): Table
    requires t != []
  {
    var p := Put(h, t, k, e);
    if Has(h, t, k) || Balanced(p) then p else Grow(h, p)
  }

  function Erase(h: Hash, t: Table, k: string): (r: Table)
    requires t != []
    ensures |r| == |t|
  {
    var b := Home(h, |t|, k);
    t[b := ChainErase(t[b], k)]
  }

  lemma IndexOfUnique(c: Chain, k: string, i: nat)
    requires i < |c| && c[i].key == k
    requires forall j :: 0 <= j < i ==> c[j].key != k
    ensures IndexOf(c, k) == i
  {
  }

  lemma IndexOfAbsent(c: Chain, k: string)
    requires forall j :: 0 <= j < |c| ==> c[j].key != k
    ensures IndexOf(c, k) == |c|
  {
  }

  /** In a well-formed table a link is found by looking its key up. */
  lemma LookupAt(h: Hash, t: Table, b: nat, i: nat)
    requires WellFormed(h, t)
    requires b < |t| && i < |t[b]|
    ensures Home(h, |t|, t[b][i].key) == b && IndexOf(t[b], t[b][i].key) == i
    ensures Lookup(h, t, t[b][i].key) == Some(t[b][i].entry)
  {
    assert GoodChain(h, |t|, b, t[b]);
    IndexOfUnique(t[b], t[b][i].key, i);
  }

  /** Every link of a well-formed table stands in the bucket its hash names, where its key is found. */
  lemma KeysAtHome(h: Hash, t: Table, b: nat, i: nat)
    requires WellFormed(h, t)
    requires b < |t| && i < |t[b]|
    ensures h(t[b][i].key) % |t| == b && Lookup(h, t, t[b][i].key) == Some(t[b][i].entry)
  {
    LookupAt(h, t, b, i);
  }

  // ----- Walk order -----

  lemma {:induction false} FlattenUpdate(t: Table, b: nat, c: Chain)
    requires b < |t|
    ensures Size(t[b := c]) == Size(t) - |t[b]| + |c|
  {
    var n := |t| - 1;
    assert t[b := c][..n] == if b < n then t[..n][b := c] else t[..n];
    if b < n {
      FlattenUpdate(t[..n], b, c);
    }
  }

  lemma {:induction false} FlattenEmpty(n: nat)
    ensures Flatten(Empty(n)) == []
  {
    if n > 0 {
      assert Empty(n)[..n - 1] == Empty(n - 1);
      FlattenEmpty(n - 1);
    }
  }

  /** The walk meets exactly the links of the table. */
  lemma {:induction false} FlattenHolds(t: Table, x: Binding)
    ensures x in Flatten(t) <==> exists b :: 0 <= b < |t| && x in t[b]
  {
    if t != [] {
      var n := |t| - 1;
      FlattenHolds(t[..n], x);
      if x in Flatten(t) && x in Flatten(t[..n]) {
        var b :| 0 <= b < n && x in t[..n][b];
        assert x in t[b];
      }
      if b :| 0 <= b < |t| && x in t[b] && b < n {
        assert x in t[..n][b];
      }
    }
  }

  lemma {:induction false} FlattenDistinct(h: Hash, n: nat, t: Table)
    requires Placed(h, n, t)
    ensures DistinctKeys(Flatten(t))
  {
    if t != [] {
      var m := |t| - 1;
      assert GoodChain(h, n, m, t[m]);
      forall b | 0 <= b < m ensures GoodChain(h, n, b, t[..m][b]) {
        assert GoodChain(h, n, b, t[b]);
      }
      FlattenDistinct(h, n, t[..m]);
      forall i, j | 0 <= i < |Flatten(t[..m])| && 0 <= j < |t[m]|
        ensures Flatten(t[..m])[i].key != t[m][j].key
      {
        FlattenHolds(t[..m], Flatten(t[..m])[i]);
        var b :| 0 <= b < m && Flatten(t[..m])[i] in t[..m][b];
        assert GoodChain(h, n, b, t[b]);
      }
    }
  }

  lemma WalkHolds(h: Hash, t: Table, k: string, e: Entry)
    requires WellFormed(h, t)
    ensures Binding(k, e) in Flatten(t) <==> Lookup(h, t, k) == Some(e)
  {
    FlattenHolds(t, Binding(k, e));
    if Lookup(h, t, k) == Some(e) {
      assert Binding(k, e) in t[Home(h, |t|, k)];
    } else if Binding(k, e) in Flatten(t) {
      var b :| 0 <= b < |t| && Binding(k, e) in t[b];
      var i :| 0 <= i < |t[b]| && t[b][i] == Binding(k, e);
      LookupAt(h, t, b, i);
    }
  }

  /** A full walk visits each binding of the map exactly once. */
  lemma WalkIsContents(h: Hash, t: Table)
    requires WellFormed(h, t)
    ensures DistinctKeys(Flatten(t))
    ensures Size(t) == |Contents(t)|
    ensures forall k :: k in Contents(t) ==> Binding(k, Contents(t)[k]) in Flatten(t)
    ensures forall x :: x in Flatten(t) ==> x.key in Contents(t) && Contents(t)[x.key] == x.entry
  {
    FlattenDistinct(h, |t|, t);
    MapOfDistinct(Flatten(t));
  }

  /** Looking a key up in its own bucket finds what the map holds. */
  lemma LookupIsContents(h: Hash, t: Table, k: string)
    requires WellFormed(h, t)
    ensures Lookup(h, t, k) == if k in Contents(t) then Some(Contents(t)[k]) else None
  {
    WalkIsContents(h, t);
    if k in Contents(t) {
      WalkHolds(h, t, k, Contents(t)[k]);
    } else if Has(h, t, k) {
      WalkHolds(h, t, k, Lookup(h, t, k).value);
    }
  }

  lemma {:induction false} FlattenPrefix(t: Table, b: nat)
    requires b < |t|
    ensures Flatten(t[..b + 1]) == Flatten(t[..b]) + t[b]
    ensures Size(t[..b + 1]) <= Size(t)
    decreases |t|
  {
    assert t[..b + 1][..b] == t[..b];
    if b + 1 == |t| {
      assert t[..b + 1] == t;
    } else {
      var n := |t| - 1;
      assert t[..n][..b + 1] == t[..b + 1] && t[..n][..b] == t[..b];
      FlattenPrefix(t[..n], b);
    }
  }

  // ----- One operation on the table is one operation on the map -----

  lemma ChainPutFinds(c: Chain, k: string, e: Entry, x: string)
    ensures Find(ChainPut(c, k, e), x) == if x == k then Some(e) else Find(c, x)
    ensures |ChainPut(c, k, e)| == |c| + if Find(c, k).Some? then 0 else 1
  {
    var i, l, r := IndexOf(c, k), IndexOf(c, x), ChainPut(c, k, e);
    if x == k {
      IndexOfUnique(r, x, if i < |c| then i else 0);
    } else if l < |c| {
      IndexOfUnique(r, x, if i < |c| then l else l + 1);
    } else {
      IndexOfAbsent(r, x);
    }
  }

  lemma ChainEraseFinds(c: Chain, k: string, x: string)
    requires DistinctKeys(c)
    ensures Find(ChainErase(c, k), x) == if x == k then None else Find(c, x)
    ensures |ChainErase(c, k)| == |c| - if Find(c, k).Some? then 1 else 0
  {
    var i, l, r := IndexOf(c, k), IndexOf(c, x), ChainErase(c, k);
    if i < |c| {
      assert forall j :: 0 <= j < |r| ==> r[j] == c[if j < i then j else j + 1];
      if x == k || l == |c| {
        IndexOfAbsent(r, x);
      } else {
        IndexOfUnique(r, x, if l < i then l else l - 1);
      }
    }
  }

  /** Replacing one chain by another that may stand there keeps the table well formed. */
  lemma UpdateWellFormed(h: Hash, t: Table, b: nat, c: Chain)
    requires WellFormed(h, t) && b < |t| && GoodChain(h, |t|, b, c)
    ensures WellFormed(h, t[b := c])
  {
    var r := t[b := c];
    forall x | 0 <= x < |t| ensures GoodChain(h, |t|, x, r[x]) {
      assert x != b ==> GoodChain(h, |t|, x, t[x]);
    }
  }

  lemma ChainPutGood(h: Hash, n: nat, c: Chain, k: string, e: Entry)
    requires n > 0 && GoodChain(h, n, Home(h, n, k), c)
    ensures GoodChain(h, n, Home(h, n, k), ChainPut(c, k, e))
  {
  }

  lemma ChainEraseGood(h: Hash, n: nat, b: nat, c: Chain, k: string)
    requires n > 0 && GoodChain(h, n, b, c)
    ensures GoodChain(h, n, b, ChainErase(c, k))
  {
    var i, r := IndexOf(c, k), ChainErase(c, k);
    if i < |c| {
      assert forall j :: 0 <= j < |r| ==> r[j] == c[if j < i then j else j + 1];
    }
  }

  lemma ContentsIs(h: Hash, t: Table, m: map<string, Entry>)
    requires WellFormed(h, t)
    requires forall k :: Lookup(h, t, k) == if k in m then Some(m[k]) else None
    ensures Contents(t) == m
  {
    forall k ensures k in m <==> k in Contents(t) { LookupIsContents(h, t, k); }
    forall k | k in m ensures m[k] == Contents(t)[k] { LookupIsContents(h, t, k); }
  }

  lemma PutRefines(h: Hash, t: Table, k: string, e: Entry)
    requires WellFormed(h, t)
    ensures WellFormed(h, Put(h, t, k, e))
    ensures Contents(Put(h, t, k, e)) == Contents(t)[k := e]
    ensures Size(Put(h, t, k, e)) == Size(t) + if Has(h, t, k) then 0 else 1
  {
    var b, r := Home(h, |t|, k), Put(h, t, k, e);
    assert GoodChain(h, |t|, b, t[b]);
    ChainPutGood(h, |t|, t[b], k, e);
    UpdateWellFormed(h, t, b, r[b]);
    FlattenUpdate(t, b, r[b]);
    ChainPutFinds(t[b], k, e, k);
    forall x ensures Lookup(h, r, x) == if x == k then Some(e) else Lookup(h, t, x) {
      ChainPutFinds(t[b], k, e, x);
    }
    forall x ensures Lookup(h, t, x) == if x in Contents(t) then Some(Contents(t)[x]) else None {
      LookupIsContents(h, t, x);
    }
    ContentsIs(h, r, Contents(t)[k := e]);
  }

  lemma EraseRefines(h: Hash, t: Table, k: string)
    requires WellFormed(h, t)
    ensures WellFormed(h, Erase(h, t, k))
    ensures Contents(Erase(h, t, k)) == Contents(t) - {k}
    ensures Size(Erase(h, t, k)) == Size(t) - if Has(h, t, k) then 1 else 0
  {
    var b, r := Home(h, |t|, k), Erase(h, t, k);
    assert GoodChain(h, |t|, b, t[b]);
    ChainEraseGood(h, |t|, b, t[b], k);
    UpdateWellFormed(h, t, b, r[b]);
    FlattenUpdate(t, b, r[b]);
    ChainEraseFinds(t[b], k, k);
    forall x ensures Lookup(h, r, x) == if x == k then None else Lookup(h, t, x) {
      ChainEraseFinds(t[b], k, x);
    }
    forall x ensures Lookup(h, t, x) == if x in Contents(t) then Some(Contents(t)[x]) else None {
      LookupIsContents(h, t, x);
    }
    ContentsIs(h, r, Contents(t) - {k});
  }

  lemma EmptyIsEmpty(h: Hash, n: nat)
    requires n >= MIN_BUCKETS
    ensures WellFormed(h, Empty(n)) && Balanced(Empty(n)) && Size(Empty(n)) == 0
    ensures Contents(Empty(n)) == map[]
  {
    FlattenEmpty(n);
  }

  lemma {:induction false} PutAllRefines(h: Hash, t: Table, s: seq<Binding>)
    requires WellFormed(h, t)
    ensures WellFormed(h, PutAll(h, t, s))
    ensures Contents(PutAll(h, t, s)) == Contents(t) + MapOf(s)
  {
    if s == [] {
      MapPlusEmpty(Contents(t));
    } else {
      var i := |s| - 1;
      PutAllRefines(h, t, s[..i]);
      PutRefines(h, PutAll(h, t, s[..i]), s[i].key, s[i].entry);
      MapPlusUpdate(Contents(t), MapOf(s[..i]), s[i].key, s[i].entry);
    }
  }

  lemma MapPlusEmpty(m: map<string, Entry>)
    ensures m + map[] == m && map[] + m == m
  {
  }

  lemma MapPlusUpdate(m: map<string, Entry>, n: map<string, Entry>, k: string, e: Entry)
    ensures (m + n)[k := e] == m + n[k := e]
  {
  }

  /** Doubling keeps the map. */
  lemma GrowRefines(h: Hash, t: Table)
    requires WellFormed(h, t)
    ensures WellFormed(h, Grow(h, t)) && |Grow(h, t)| == 2 * |t|
    ensures Contents(Grow(h, t)) == Contents(t)
    ensures Size(Grow(h, t)) == Size(t)
  {
    EmptyIsEmpty(h, 2 * |t|);
    PutAllRefines(h, Empty(2 * |t|), Flatten(t));
    MapPlusEmpty(MapOf(Flatten(t)));
    WalkIsContents(h, t);
    WalkIsContents(h, Grow(h, t));
  }

  lemma InsertRefines(h: Hash, t: Table, k: string, e: Entry)
    requires WellFormed(h, t) && Balanced(t)
    ensures WellFormed(h, Insert(h, t, k, e)) && Balanced(Insert(h, t, k, e))
    ensures Contents(Insert(h, t, k, e)) == Contents(t)[k := e]
    ensures Size(Insert(h, t, k, e)) == Size(t) + if Has(h, t, k) then 0 else 1
  {
    PutRefines(h, t, k, e);
    var p := Put(h, t, k, e);
    if !Has(h, t, k) && !Balanced(p) {
      GrowRefines(h, p);
    }
  }

  /** With room for one more key the insert does not grow the table. */
  lemma InsertWithRoom(h: Hash, t: Table, k: string, e: Entry)
    requires WellFormed(h, t) && 4 * (Size(t) + 1) <= 3 * |t|
    ensures Insert(h, t, k, e) == Put(h, t, k, e) && Size(Put(h, t, k, e)) <= Size(t) + 1
  {
    PutRefines(h, t, k, e);
  }

  /** The number of buckets doubles exactly when a new key would fill more than three quarters of them. */
  lemma InsertBuckets(h: Hash, t: Table, k: string, e: Entry)
    requires WellFormed(h, t)
    ensures |Insert(h, t, k, e)| ==
            if k in Contents(t) || 4 * (|Contents(t)| + 1) <= 3 * |t| then |t| else 2 * |t|
  {
    PutRefines(h, t, k, e);
    LookupIsContents(h, t, k);
    WalkIsContents(h, t);
  }

  lemma {:induction false} PutAllConcat(h: Hash, t: Table, s: seq<Binding>, u: seq<Binding>)
    requires t != []
    ensures PutAll(h, PutAll(h, t, s), u) == PutAll(h, t, s + u)
  {
    if u == [] {
      assert s + u == s;
    } else {
      assert (s + u)[..|s + u| - 1] == s + u[..|u| - 1];
      PutAllConcat(h, t, s, u[..|u| - 1]);
    }
  }
}
