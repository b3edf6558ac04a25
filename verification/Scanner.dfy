/** One SCAN page over the bucket array, and the walk of src/storage/key_scanner.cpp that computes it. */
module Scanner {
  import opened Entries
  import opened Buckets
  import opened Glob
  import opened HashTables

  datatype Cursor = Cursor(bucket: nat, chain: nat)

  datatype Page = Page(next: Cursor, keys: seq<string>, finished: bool)

  /** The bindings at and after a cursor, in walk order. */
  function Rest(t: Table, c: Cursor): seq<Binding>
    decreases |t| - c.bucket
  {
    if c.bucket >= |t| then []
    else
      var chain := t[c.bucket];
      (if c.chain < |chain| then chain[c.chain..] else []) + Rest(t, Cursor(c.bucket + 1, 0))
  }

  function MatchingKeys(s: seq<Binding>, pattern: string): seq<string> {
    if s == [] then []
    else (if Matches(s[0].key, pattern) then [s[0].key] else []) + MatchingKeys(s[1..], pattern)
  }

  /** Links still to be visited, plus buckets: what every step of the walk lowers. */
  function Distance(t: Table, c: Cursor): nat {
    if c.bucket >= |t| then 0
    else (if c.chain < |t[c.bucket]| then |t[c.bucket]| - c.chain else 0)
  }

  /** Collects up to `need` matching keys from `c` on; the cursor stops right after the last of them. */
  function Collect(t: Table, c: Cursor, need: nat, pattern: string): (seq<string>, Cursor)
    requires need > 0
    decreases |t| - c.bucket, Distance(t, c)
  {
    if c.bucket >= |t| then ([], c)
    else if c.chain >= |t[c.bucket]| then Collect(t, Cursor(c.bucket + 1, 0), need, pattern)
    else
      var key, after := t[c.bucket][c.chain].key, Cursor(c.bucket, c.chain + 1);
      if !Matches(key, pattern) then Collect(t, after, need, pattern)
      else if need == 1 then ([key], after)
      else var (keys, next) := Collect(t, after, need - 1, pattern); ([key] + keys, next)
  }

  function PageAt(t: Table, c: Cursor, count: nat, pattern: string): Page {
    if count == 0 then Page(c, [], true)
    else
      var (keys, next) := Collect(t, c, count, pattern);
      Page(next, keys, next.bucket >= |t|)
  }

  /** `KeyScanner::scan` */
  method Scan(table: HashTable, cursor: Cursor, count: nat, pattern: string) returns (page: Page)
    requires table.Valid()
    ensures page == PageAt(table.chains, cursor, count, pattern)
  {
    if count == 0 {
      return Page(cursor, [], true);
    }
    ghost var t, goal := table.chains, Collect(table.chains, cursor, count, pattern);
    var buckets := table.buckets.Length;
    var next, keys := cursor, [];
    assert keys + goal.0 == goal.0;
    while next.bucket < buckets && |keys| < count
      invariant |keys| <= count
      invariant |keys| < count ==> Continues(t, keys, next, count, pattern, goal)
      invariant |keys| == count ==> goal == (keys, next) && next.bucket < buckets
      decreases buckets - next.bucket, count - |keys|
    {
      var bucket := next.bucket;
      var visited := table.ForEachBucket(bucket);
      keys, next := VisitBucket(visited, next, keys, count, pattern, t, goal);
      if |keys| < count {
        next := Cursor(bucket + 1, 0);
      }
    }
    return Page(next, keys, next.bucket >= buckets);
  }

  /** The callback of `scan`, given each link of bucket `from.bucket` with its index. */
  method VisitBucket(visited: seq<Binding>, from: Cursor, prior: seq<string>, count: nat, pattern: string,
                     ghost t: Table, ghost goal: (seq<string>, Cursor))
    returns (keys: seq<string>, next: Cursor)
    requires |prior| < count && from.bucket < |t| && visited == t[from.bucket]
    requires Continues(t, prior, from, count, pattern, goal)
    ensures |keys| <= count && next.bucket == from.bucket
    ensures |keys| == count ==> goal == (keys, next)
    ensures |keys| < count ==> Continues(t, keys, Cursor(from.bucket + 1, 0), count, pattern, goal)
  {
    var chain := from.chain;
    keys, next := prior, from;
    for index := 0 to |visited|
      invariant |keys| <= count && next.bucket == from.bucket
      invariant |keys| < count ==> chain == if index < from.chain then from.chain else index
      invariant |keys| < count ==> Continues(t, keys, Cursor(from.bucket, chain), count, pattern, goal)
      invariant |keys| == count ==> goal == (keys, next)
    {
      if index >= chain && |keys| < count {
        if Matches(visited[index].key, pattern) {
          MatchContinues(t, keys, Cursor(from.bucket, index), count, pattern, goal);
          keys := keys + [visited[index].key];
        }
        chain := index + 1;
        next := Cursor(from.bucket, chain);
      }
    }
  }

  /** `keys` followed by what is collected from `c` on is the goal. */
  ghost predicate Continues(t: Table, keys: seq<string>, c: Cursor, count: nat, pattern: string,
                            goal: (seq<string>, Cursor))
    requires |keys| < count
  {
    var (more, next) := Collect(t, c, count - |keys|, pattern);
    goal == (keys + more, next)
  }

  lemma MatchContinues(t: Table, keys: seq<string>, c: Cursor, count: nat, pattern: string,
                       goal: (seq<string>, Cursor))
    requires |keys| < count && c.bucket < |t| && c.chain < |t[c.bucket]|
    requires Continues(t, keys, c, count, pattern, goal) && Matches(t[c.bucket][c.chain].key, pattern)
    ensures var keys', after := keys + [t[c.bucket][c.chain].key], Cursor(c.bucket, c.chain + 1);
            if |keys'| == count then goal == (keys', after) else Continues(t, keys', after, count, pattern, goal)
  {
    var key, after := t[c.bucket][c.chain].key, Cursor(c.bucket, c.chain + 1);
    if count - |keys| > 1 {
      var more := Collect(t, after, count - |keys| - 1, pattern).0;
      assert keys + ([key] + more) == (keys + [key]) + more;
    }
  }
}
