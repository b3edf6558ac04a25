/** What the pages of a SCAN add up to, on a fixed table and on one that changes between pages. */
module Paging {
  import opened Entries
  import opened Buckets
  import opened Glob
  import opened Scanner
  import TableRuns

  // ----- One page -----

  lemma DropOne(chain: Chain, i: nat, later: seq<Binding>, from: seq<Binding>, after: seq<Binding>)
    requires i < |chain| && from == chain[i..] + later && after == chain[i + 1..] + later
    ensures from == [chain[i]] + after
  {
  }

  lemma RestAt(t: Table, c: Cursor)
    requires c.bucket < |t| && c.chain <= |t[c.bucket]|
    ensures Rest(t, c) == t[c.bucket][c.chain..] + Rest(t, Cursor(c.bucket + 1, 0))
  {
  }

  lemma RestStep(t: Table, c: Cursor)
    requires c.bucket < |t| && c.chain < |t[c.bucket]|
    ensures Rest(t, c) == [t[c.bucket][c.chain]] + Rest(t, Cursor(c.bucket, c.chain + 1))
  {
    var after := Cursor(c.bucket, c.chain + 1);
    RestAt(t, c);
    RestAt(t, after);
    DropOne(t[c.bucket], c.chain, Rest(t, Cursor(c.bucket + 1, 0)), Rest(t, c), Rest(t, after));
  }

  lemma MatchingStep(t: Table, c: Cursor, pattern: string)
    requires c.bucket < |t| && c.chain < |t[c.bucket]|
    ensures var key, after := t[c.bucket][c.chain].key, Cursor(c.bucket, c.chain + 1);
            && |Rest(t, c)| == |Rest(t, after)| + 1
            && MatchingKeys(Rest(t, c), pattern) ==
                 (if Matches(key, pattern) then [key] else []) + MatchingKeys(Rest(t, after), pattern)
  {
    RestStep(t, c);
    assert Rest(t, c)[1..] == Rest(t, Cursor(c.bucket, c.chain + 1));
  }

  /** A page is the next stretch of the matching keys: nothing is skipped and nothing repeated. */
  lemma {:induction false} CollectSplits(t: Table, c: Cursor, need: nat, pattern: string)
    requires need > 0
    ensures var (keys, next) := Collect(t, c, need, pattern);
            && MatchingKeys(Rest(t, c), pattern) == keys + MatchingKeys(Rest(t, next), pattern)
            && |keys| <= need
            && (next.bucket >= |t| <==> |keys| < need)
            && (next.bucket < |t| ==> next.chain > 0 && |Rest(t, next)| < |Rest(t, c)|)
            && (next.bucket < |t| ==> next.chain <= |t[next.bucket]|)
    decreases |t| - c.bucket, Distance(t, c)
  {
    if c.bucket < |t| {
      if c.chain >= |t[c.bucket]| {
        CollectSplits(t, Cursor(c.bucket + 1, 0), need, pattern);
        assert Rest(t, c) == Rest(t, Cursor(c.bucket + 1, 0));
      } else {
        var key, after := t[c.bucket][c.chain].key, Cursor(c.bucket, c.chain + 1);
        MatchingStep(t, c, pattern);
        if !Matches(key, pattern) {
          CollectSplits(t, after, need, pattern);
        } else if need > 1 {
          CollectSplits(t, after, need - 1, pattern);
          var (keys, next) := Collect(t, after, need - 1, pattern);
          var later := MatchingKeys(Rest(t, next), pattern);
          assert [key] + (keys + later) == ([key] + keys) + later;
        }
      }
    }
  }

  /** An unfinished page stops right after the link of its last key; a finished one stops past the buckets. */
  lemma {:induction false} CollectStops(t: Table, c: Cursor, need: nat, pattern: string)
    requires need > 0
    ensures var (keys, next) := Collect(t, c, need, pattern);
            if next.bucket < |t| then
              && keys != [] && 0 < next.chain <= |t[next.bucket]|
              && t[next.bucket][next.chain - 1].key == keys[|keys| - 1]
            else next == if c.bucket < |t| then Cursor(|t|, 0) else c
    decreases |t| - c.bucket, Distance(t, c)
  {
    if c.bucket < |t| {
      if c.chain >= |t[c.bucket]| {
        CollectStops(t, Cursor(c.bucket + 1, 0), need, pattern);
      } else {
        var key, after := t[c.bucket][c.chain].key, Cursor(c.bucket, c.chain + 1);
        if !Matches(key, pattern) {
          CollectStops(t, after, need, pattern);
        } else if need > 1 {
          CollectStops(t, after, need - 1, pattern);
        }
      }
    }
  }

  lemma PrefixOf(all: seq<string>, keys: seq<string>, later: seq<string>, count: nat)
    requires all == keys + later && |keys| <= count && (|keys| < count ==> later == [])
    ensures keys == all[..if count < |all| then count else |all|] && later == all[|keys|..]
  {
  }

  /**
   * A page holds the next `count` matching keys, or all of them when there are fewer; it is finished
   * exactly when there are fewer, or when none were asked for; and its cursor leaves exactly the others.
   */
  lemma PageIs(t: Table, c: Cursor, count: nat, pattern: string)
    ensures var page, all := PageAt(t, c, count, pattern), MatchingKeys(Rest(t, c), pattern);
            && page.keys == all[..if count < |all| then count else |all|]
            && (page.finished <==> count == 0 || |all| < count)
            && MatchingKeys(Rest(t, page.next), pattern) == all[|page.keys|..]
            && (count == 0 ==> page.next == c)
  {
    if count > 0 {
      CollectSplits(t, c, count, pattern);
      var page, all := PageAt(t, c, count, pattern), MatchingKeys(Rest(t, c), pattern);
      PageLength(t, c, count, pattern);
      PrefixOf(all, page.keys, MatchingKeys(Rest(t, page.next), pattern), count);
    }
  }

  lemma PageLength(t: Table, c: Cursor, count: nat, pattern: string)
    requires count > 0
    ensures var page, all := PageAt(t, c, count, pattern), MatchingKeys(Rest(t, c), pattern);
            && (page.finished <==> |all| < count)
            && (page.finished ==> MatchingKeys(Rest(t, page.next), pattern) == [])
  {
    CollectSplits(t, c, count, pattern);
  }

  lemma {:induction false} RestFromBucket(t: Table, b: nat)
    requires b <= |t|
    ensures Flatten(t[..b]) + Rest(t, Cursor(b, 0)) == Flatten(t)
    decreases |t| - b
  {
    if b == |t| {
      assert t[..b] == t;
    } else {
      RestFromBucket(t, b + 1);
      FlattenPrefix(t, b);
      RestWhole(t, b);
    }
  }

  lemma RestWhole(t: Table, b: nat)
    requires b < |t|
    ensures Rest(t, Cursor(b, 0)) == t[b] + Rest(t, Cursor(b + 1, 0))
  {
    assert t[b][0..] == t[b];
  }

  // ----- All pages of a fixed table -----

  /** The pages a client gets from `c` on when it passes each cursor back. */
  function PagesFrom(t: Table, c: Cursor, count: nat, pattern: string): seq<string>
    requires count > 0
    decreases |Rest(t, c)|
  {
    var page := PageAt(t, c, count, pattern);
    if page.finished then page.keys
    else
      CollectSplits(t, c, count, pattern);
      page.keys + PagesFrom(t, page.next, count, pattern)
  }

  lemma {:induction false} PagesAreRest(t: Table, c: Cursor, count: nat, pattern: string)
    requires count > 0
    ensures PagesFrom(t, c, count, pattern) == MatchingKeys(Rest(t, c), pattern)
    decreases |Rest(t, c)|
  {
    CollectSplits(t, c, count, pattern);
    var page := PageAt(t, c, count, pattern);
    if page.finished {
      assert page.keys + [] == page.keys;
    } else {
      PagesAreRest(t, page.next, count, pattern);
    }
  }

  /** A full SCAN of an unchanged table returns the matching keys in walk order, each once. */
  lemma FullScan(t: Table, count: nat, pattern: string)
    requires count > 0
    ensures PagesFrom(t, Cursor(0, 0), count, pattern) == MatchingKeys(Flatten(t), pattern)
  {
    PagesAreRest(t, Cursor(0, 0), count, pattern);
    RestFromBucket(t, 0);
    assert Flatten(t[..0]) + Rest(t, Cursor(0, 0)) == Rest(t, Cursor(0, 0));
  }

  lemma {:induction false} MatchingKeysDistinct(s: seq<Binding>, pattern: string)
    requires DistinctKeys(s)
    ensures forall i, j :: 0 <= i < j < |MatchingKeys(s, pattern)| ==>
              MatchingKeys(s, pattern)[i] != MatchingKeys(s, pattern)[j]
    ensures forall k :: k in MatchingKeys(s, pattern) <==> Matches(k, pattern) && HoldsKey(s, k)
  {
    if s != [] {
      MatchingKeysDistinct(s[1..], pattern);
      forall k ensures HoldsKey(s, k) <==> k == s[0].key || HoldsKey(s[1..], k) {
        HoldsKeyStep(s, k);
      }
      assert !HoldsKey(s[1..], s[0].key);
    }
  }

  ghost predicate HoldsKey(s: seq<Binding>, k: string) {
    exists i :: 0 <= i < |s| && s[i].key == k
  }

  lemma HoldsKeyStep(s: seq<Binding>, k: string)
    requires s != []
    ensures HoldsKey(s, k) <==> k == s[0].key || HoldsKey(s[1..], k)
  {
    if i :| 0 <= i < |s| && s[i].key == k && i > 0 {
      assert s[1..][i - 1].key == k;
    }
    if i :| 0 <= i < |s[1..]| && s[1..][i].key == k {
      assert s[i + 1].key == k;
    }
  }

  // ----- Where a key is, relative to the cursor -----

  function Position(h: Hash, t: Table, k: string): Cursor
    requires t != []
  {
    var b := Home(h, |t|, k);
    Cursor(b, IndexOf(t[b], k))
  }

  predicate AtOrAfter(p: Cursor, c: Cursor) {
    p.bucket > c.bucket || (p.bucket == c.bucket && p.chain >= c.chain)
  }

  lemma {:induction false} RestHolds(t: Table, c: Cursor, k: string)
    ensures HoldsKey(Rest(t, c), k) <==>
            exists b, i :: 0 <= b < |t| && 0 <= i < |t[b]| && AtOrAfter(Cursor(b, i), c) && t[b][i].key == k
    decreases |t| - c.bucket
  {
    if c.bucket < |t| {
      var chain, later := t[c.bucket], Rest(t, Cursor(c.bucket + 1, 0));
      RestHolds(t, Cursor(c.bucket + 1, 0), k);
      var here := if c.chain < |chain| then chain[c.chain..] else [];
      assert Rest(t, c) == here + later;
      if j :| 0 <= j < |Rest(t, c)| && Rest(t, c)[j].key == k {
        if j < |here| {
          assert chain[c.chain + j].key == k && AtOrAfter(Cursor(c.bucket, c.chain + j), c);
        } else {
          assert later[j - |here|].key == k;
        }
      }
      if b, i :| 0 <= b < |t| && 0 <= i < |t[b]| && AtOrAfter(Cursor(b, i), c) && t[b][i].key == k {
        if b == c.bucket {
          assert Rest(t, c)[i - c.chain].key == k;
        } else {
          assert AtOrAfter(Cursor(b, i), Cursor(c.bucket + 1, 0));
          var j :| 0 <= j < |later| && later[j].key == k;
          assert Rest(t, c)[|here| + j].key == k;
        }
      }
    }
  }

  lemma {:induction false} MatchingKeysHold(s: seq<Binding>, pattern: string, k: string)
    ensures k in MatchingKeys(s, pattern) <==> Matches(k, pattern) && HoldsKey(s, k)
  {
    if s != [] {
      MatchingKeysHold(s[1..], pattern, k);
      HoldsKeyStep(s, k);
    }
  }

  /** Exactly the matching keys at or after the cursor are still to come. */
  lemma ScannedIffAhead(h: Hash, t: Table, c: Cursor, pattern: string, k: string)
    requires WellFormed(h, t)
    ensures k in MatchingKeys(Rest(t, c), pattern) <==>
            Matches(k, pattern) && Has(h, t, k) && AtOrAfter(Position(h, t, k), c)
  {
    MatchingKeysHold(Rest(t, c), pattern, k);
    RestHolds(t, c, k);
    if b, i :| 0 <= b < |t| && 0 <= i < |t[b]| && AtOrAfter(Cursor(b, i), c) && t[b][i].key == k {
      LookupAt(h, t, b, i);
    }
  }
}
