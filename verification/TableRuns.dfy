/** Whole runs of table operations against whole runs of map operations. */
module TableRuns {
  import opened Entries
  import opened Buckets

  datatype Op = Insert(key: string, entry: Entry) | Find(key: string) | Erase(key: string) | Clear

  datatype Answer = Added(bool) | Found(Option<Entry>) | Erased(bool) | Cleared

  function TableStep(h: Hash, t: Table, op: Op): (r: (Table, Answer))
    requires t != []
    ensures r.0 != []
  {
    match op
    case Insert(k, e) => (Buckets.Insert(h, t, k, e), Added(!Has(h, t, k)))
    case Find(k) => (t, Found(Lookup(h, t, k)))
    case Erase(k) => (Buckets.Erase(h, t, k), Erased(Has(h, t, k)))
    case Clear => (Empty(|t|), Cleared)
  }

  function MapStep(m: map<string, Entry>, op: Op): (map<string, Entry>, Answer) {
    match op
    case Insert(k, e) => (m[k := e], Added(k !in m))
    case Find(k) => (m, Found(if k in m then Some(m[k]) else None))
    case Erase(k) => (m - {k}, Erased(k in m))
    case Clear => (map[], Cleared)
  }

  lemma StepRefines(h: Hash, t: Table, op: Op)
    requires WellFormed(h, t) && Balanced(t)
    ensures var (t', a) := TableStep(h, t, op);
            WellFormed(h, t') && Balanced(t') && (Contents(t'), a) == MapStep(Contents(t), op)
  {
    match op
    case Insert(k, e) => InsertRefines(h, t, k, e); LookupIsContents(h, t, k);
    case Find(k) => LookupIsContents(h, t, k);
    case Erase(k) => EraseRefines(h, t, k); LookupIsContents(h, t, k);
    case Clear => EmptyIsEmpty(h, |t|);
  }

  function TableRun(h: Hash, t: Table, ops: seq<Op>): (Table, seq<Answer>)
    requires t != []
    decreases |ops|
  {
    if ops == [] then (t, [])
    else
      var (t1, a) := TableStep(h, t, ops[0]);
      var (t2, rest) := TableRun(h, t1, ops[1..]);
      (t2, [a] + rest)
  }

  function MapRun(m: map<string, Entry>, ops: seq<Op>): (map<string, Entry>, seq<Answer>)
    decreases |ops|
  {
    if ops == [] then (m, [])
    else
      var (m1, a) := MapStep(m, ops[0]);
      var (m2, rest) := MapRun(m1, ops[1..]);
      (m2, [a] + rest)
  }

  /**
   * For every hash function and every run, the chained table answers as a finite map does and ends
   * holding that map: each key once and in its own bucket, counted once, at most three quarters full,
   * and met exactly once by a full walk.
   */
  lemma {:induction false} TableRunRefinesMap(h: Hash, t: Table, ops: seq<Op>)
    requires WellFormed(h, t) && Balanced(t)
    ensures var (t', answers) := TableRun(h, t, ops);
            && (Contents(t'), answers) == MapRun(Contents(t), ops)
            && Size(t') == |Contents(t')|
            && DistinctKeys(Flatten(t'))
            && |t'| >= 16 && 4 * Size(t') <= 3 * |t'|
    decreases |ops|
  {
    if ops == [] {
      WalkIsContents(h, t);
    } else {
      StepRefines(h, t, ops[0]);
      TableRunRefinesMap(h, TableStep(h, t, ops[0]).0, ops[1..]);
    }
  }
}
