/** SCAN while the table changes between pages: what is still found, and exactly when a key is missed. */
module ScanUnderChange {
  import opened Entries
  import opened Buckets
  import opened Glob
  import opened Scanner
  import opened Paging
  import opened Arithmetic
  import TableRuns

  // ----- New keys and overwrites without growth -----

  lemma ChainPutIndex(c: Chain, x: string, e: Entry, k: string)
    requires Find(c, k).Some?
    ensures IndexOf(ChainPut(c, x, e), k) == IndexOf(c, k) + if Find(c, x).Some? then 0 else 1
  {
    var i := IndexOf(c, k);
    if Find(c, x).Some? {
      IndexOfUnique(ChainPut(c, x, e), k, i);
    } else {
      IndexOfUnique(ChainPut(c, x, e), k, i + 1);
    }
  }

  /** Linking at the head only moves other keys forward, so what was ahead of a cursor stays ahead. */
  lemma PutKeepsAhead(h: Hash, t: Table, x: string, e: Entry, k: string, c: Cursor)
    requires WellFormed(h, t) && Has(h, t, k) && AtOrAfter(Position(h, t, k), c)
    ensures var p := Put(h, t, x, e); Has(h, p, k) && AtOrAfter(Position(h, p, k), c)
  {
    var b := Home(h, |t|, x);
    ChainPutFinds(t[b], x, e, k);
    if Home(h, |t|, k) == b {
      ChainPutIndex(t[b], x, e, k);
    }
  }

  function InsertAll(h: Hash, t: Table, s: seq<Binding>): (r: Table)
    requires t != []
    ensures |r| >= |t|
    decreases |s|
  {
    if s == [] then t else InsertAll(h, Insert(h, t, s[0].key, s[0].entry), s[1..])
  }

  lemma {:induction false} InsertAllKeepsAhead(h: Hash, t: Table, s: seq<Binding>, k: string, c: Cursor)
    requires WellFormed(h, t) && Balanced(t) && |InsertAll(h, t, s)| == |t|
    requires Has(h, t, k) && AtOrAfter(Position(h, t, k), c)
    ensures var r := InsertAll(h, t, s);
            WellFormed(h, r) && Balanced(r) && Has(h, r, k) && AtOrAfter(Position(h, r, k), c)
    decreases |s|
  {
    if s != [] {
      InsertRefines(h, t, s[0].key, s[0].entry);
      PutKeepsAhead(h, t, s[0].key, s[0].entry, k, c);
      InsertAllKeepsAhead(h, Insert(h, t, s[0].key, s[0].entry), s[1..], k, c);
    }
  }

  /** One page request of a client, and the inserts and overwrites that happen before the next. */
  datatype Round = Round(count: nat, inserts: seq<Binding>)

  /** The keys a client has collected, and whether it was told to stop. */
  function ScanRun(h: Hash, t: Table, c: Cursor, pattern: string, rounds: seq<Round>): (seq<string>, bool)
    requires t != []
    decreases |rounds|
  {
    if rounds == [] then ([], false)
    else
      var page := PageAt(t, c, rounds[0].count, pattern);
      if page.finished then (page.keys, true)
      else
        var (keys, done) := ScanRun(h, InsertAll(h, t, rounds[0].inserts), page.next, pattern, rounds[1..]);
        (page.keys + keys, done)
  }

  ghost predicate NeverGrows(h: Hash, t: Table, rounds: seq<Round>)
    requires t != []
    decreases |rounds|
  {
    rounds != [] ==>
      var r := InsertAll(h, t, rounds[0].inserts); |r| == |t| && NeverGrows(h, r, rounds[1..])
  }

  /**
   * With only inserts and overwrites between pages and no growth, a SCAN that finishes has returned
   * every matching key that was at or after its first cursor when it began.
   */
  lemma {:induction false} ScanRunFindsAll(h: Hash, t: Table, c: Cursor, pattern: string, rounds: seq<Round>, k: string)
    requires WellFormed(h, t) && Balanced(t) && NeverGrows(h, t, rounds)
    requires forall i :: 0 <= i < |rounds| ==> rounds[i].count > 0
    requires ScanRun(h, t, c, pattern, rounds).1
    requires Has(h, t, k) && Matches(k, pattern) && AtOrAfter(Position(h, t, k), c)
    ensures k in ScanRun(h, t, c, pattern, rounds).0
    decreases |rounds|
  {
    var page := PageAt(t, c, rounds[0].count, pattern);
    PageCovers(h, t, c, rounds[0].count, pattern, k);
    if !page.finished && k !in page.keys {
      InsertAllKeepsAhead(h, t, rounds[0].inserts, k, page.next);
      ScanRunFindsAll(h, InsertAll(h, t, rounds[0].inserts), page.next, pattern, rounds[1..], k);
    }
  }

  /** A matching key ahead of the cursor is on the page or ahead of the page's own cursor. */
  lemma PageCovers(h: Hash, t: Table, c: Cursor, count: nat, pattern: string, k: string)
    requires WellFormed(h, t) && count > 0
    requires Has(h, t, k) && Matches(k, pattern) && AtOrAfter(Position(h, t, k), c)
    ensures var page := PageAt(t, c, count, pattern);
            k in page.keys || (!page.finished && AtOrAfter(Position(h, t, k), page.next))
  {
    var page := PageAt(t, c, count, pattern);
    CollectSplits(t, c, count, pattern);
    ScannedIffAhead(h, t, c, pattern, k);
    ScannedIffAhead(h, t, page.next, pattern, k);
  }

  // ----- Any change, for keys in later buckets -----

  /** Doubling sends a bucket to itself or to its copy in the upper half. */
  lemma DoublingKeepsOrder(x: nat, n: nat)
    requires n > 0
    ensures x % (2 * n) == x % n || x % (2 * n) == x % n + n
  {
    var q, r := x / (2 * n), x % (2 * n);
    assert x == n * (2 * q) + r;
    if r < n {
      DivModUnique(x, n, 2 * q, r);
    } else {
      assert x == n * (2 * q + 1) + (r - n);
      DivModUnique(x, n, 2 * q + 1, r - n);
    }
  }

  predicate Spares(op: TableRuns.Op, k: string) {
    !op.Clear? && op != TableRuns.Erase(k)
  }

  lemma StepKeepsLater(h: Hash, t: Table, op: TableRuns.Op, k: string, b: nat)
    requires WellFormed(h, t) && Balanced(t) && Spares(op, k)
    requires Has(h, t, k) && Home(h, |t|, k) > b
    ensures var r := TableRuns.TableStep(h, t, op).0; Has(h, r, k) && Home(h, |r|, k) > b
  {
    TableRuns.StepRefines(h, t, op);
    LookupIsContents(h, t, k);
    LookupIsContents(h, TableRuns.TableStep(h, t, op).0, k);
    DoublingKeepsOrder(h(k), |t|);
  }

  /**
   * Whatever inserts, overwrites, doublings and erases of other keys happen, a key in a bucket after
   * the cursor's is returned by the remaining pages of the table they leave.
   */
  lemma {:induction false} LaterKeyIsScanned(h: Hash, t: Table, ops: seq<TableRuns.Op>, c: Cursor,
                                             count: nat, pattern: string, k: string)
    requires WellFormed(h, t) && Balanced(t) && count > 0
    requires Has(h, t, k) && Home(h, |t|, k) > c.bucket && Matches(k, pattern)
    requires forall i :: 0 <= i < |ops| ==> Spares(ops[i], k)
    ensures k in PagesFrom(TableRuns.TableRun(h, t, ops).0, c, count, pattern)
    decreases |ops|
  {
    if ops == [] {
      PagesAreRest(t, c, count, pattern);
      ScannedIffAhead(h, t, c, pattern, k);
    } else {
      StepKeepsLater(h, t, ops[0], k, c.bucket);
      TableRuns.StepRefines(h, t, ops[0]);
      LaterKeyIsScanned(h, TableRuns.TableStep(h, t, ops[0]).0, ops[1..], c, count, pattern, k);
    }
  }

  // ----- When an erase hides a key -----

  lemma ChainEraseIndex(c: Chain, x: string, k: string)
    requires DistinctKeys(c) && Find(c, k).Some? && k != x
    ensures IndexOf(ChainErase(c, x), k) == IndexOf(c, k) - if IndexOf(c, x) < IndexOf(c, k) then 1 else 0
  {
    var i, j, r := IndexOf(c, k), IndexOf(c, x), ChainErase(c, x);
    if j < |c| {
      assert forall l :: 0 <= l < |r| ==> r[l] == c[if l < j then l else l + 1];
      IndexOfUnique(r, k, if j < i then i - 1 else i);
    }
  }

  /**
   * Erasing `x` takes a key that was still to come out of the remaining pages exactly when that key
   * was the very next link of the cursor's chain and `x` was linked before it.
   */
  lemma EraseHidesExactly(h: Hash, t: Table, c: Cursor, count: nat, pattern: string, x: string, k: string)
    requires WellFormed(h, t) && count > 0 && k != x
    requires k in PagesFrom(t, c, count, pattern)
    ensures k !in PagesFrom(Erase(h, t, x), c, count, pattern) <==>
            && Position(h, t, k) == c
            && Position(h, t, x).bucket == c.bucket && Position(h, t, x).chain < c.chain
  {
    var r := Erase(h, t, x);
    EraseRefines(h, t, x);
    PagesAreRest(t, c, count, pattern);
    PagesAreRest(r, c, count, pattern);
    ScannedIffAhead(h, t, c, pattern, k);
    ScannedIffAhead(h, r, c, pattern, k);
    LookupIsContents(h, t, k);
    LookupIsContents(h, r, k);
    assert GoodChain(h, |t|, Home(h, |t|, x), t[Home(h, |t|, x)]);
    if Home(h, |t|, k) == Home(h, |t|, x) {
      ChainEraseIndex(t[Home(h, |t|, x)], x, k);
    }
  }

  /** It does happen: "a" was returned, then erased, and "b" slips in front of the cursor. */
  lemma EraseCanHide(e: Entry)
    ensures var h: Hash := _ => 0;
            var t := Empty(MIN_BUCKETS)[0 := [Binding("a", e), Binding("b", e)]];
            && WellFormed(h, t)
            && PageAt(t, Cursor(0, 0), 1, "*") == Page(Cursor(0, 1), ["a"], false)
            && "b" in PagesFrom(t, Cursor(0, 1), 1, "*")
            && "b" !in PagesFrom(Erase(h, t, "a"), Cursor(0, 1), 1, "*")
  {
    var h: Hash := _ => 0;
    var chain, c := [Binding("a", e), Binding("b", e)], Cursor(0, 1);
    var t := Empty(MIN_BUCKETS)[0 := chain];
    EmptyIsEmpty(h, MIN_BUCKETS);
    UpdateWellFormed(h, Empty(MIN_BUCKETS), 0, chain);
    IndexOfUnique(chain, "a", 0);
    IndexOfUnique(chain, "b", 1);
    assert Position(h, t, "a") == Cursor(0, 0) && Position(h, t, "b") == c;
    PagesAreRest(t, c, 1, "*");
    ScannedIffAhead(h, t, c, "*", "b");
    EraseHidesExactly(h, t, c, 1, "*", "a", "b");
  }
}
