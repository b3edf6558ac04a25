/** Counters kept as decimal text under ordinary keys. */
module Counters {
  import opened Entries
  import opened Text
  import opened Buckets
  import opened Ttl
  import opened Engine

  /** What an increment comes to: a number, an exception of `std::stoll`, or a signed overflow. */
  datatype Outcome = Sum(value: int) | Throws | Overflows

  /** `parse_value`: nothing and the empty string count as zero. */
  function ValueOf(raw: Option<string>): Parsed {
    if raw == None || raw.value == "" then Number(0) else Stoll(raw.value)
  }

  function IncrementAt(m: Store, k: string, delta: int, now: int): (Store, Outcome) {
    match ValueOf(GetAt(m, k, now))
    case Number(v) =>
      if -I64 <= v + delta < I64
      then (m[k := Entry(PrintInt(v + delta), None)], Sum(v + delta))
      else (m, Overflows)
    case _ => (m, Throws)
  }

  /** An increment of the counter, or anything else that happens to the engine. */
  datatype Event = Incr(delta: int, at: int) | Other(event: Ttl.Event)

  /** The event leaves key `k` to the counter: other keys, reads, and legal sweeps. */
  ghost predicate Spares(m: Store, ev: Ttl.Event, k: string) {
    match ev
    case Get(_, _) => true
    case Clear => false
    case Sweep(start, end, removed) => SweepRemoves(m, removed, start, end)
    case _ => ev.key != k
  }

  function StepOn(m: Store, k: string, ev: Event): Store {
    match ev
    case Incr(delta, at) => IncrementAt(m, k, delta, at).0
    case Other(e) => Step(m, e)
  }

  ghost predicate AllSpare(m: Store, k: string, run: seq<Event>)
    decreases |run|
  {
    run != [] ==> (run[0].Other? ==> Spares(m, run[0].event, k)) && AllSpare(StepOn(m, k, run[0]), k, run[1..])
  }

  /** The outcomes of the increments of a run, in order. */
  function Outcomes(m: Store, k: string, run: seq<Event>): seq<Outcome>
    decreases |run|
  {
    if run == [] then []
    else (if run[0].Incr? then [IncrementAt(m, k, run[0].delta, run[0].at).1] else []) +
         Outcomes(StepOn(m, k, run[0]), k, run[1..])
  }

  function After(m: Store, k: string, run: seq<Event>): Store
    decreases |run|
  {
    if run == [] then m else After(StepOn(m, k, run[0]), k, run[1..])
  }

  /** Starting value plus each prefix sum of the deltas. */
  function Sums(start: int, run: seq<Event>): seq<Outcome>
    decreases |run|
  {
    if run == [] then []
    else if run[0].Incr? then [Sum(start + run[0].delta)] + Sums(start + run[0].delta, run[1..])
    else Sums(start, run[1..])
  }

  function Total(start: int, run: seq<Event>): int
    decreases |run|
  {
    if run == [] then start else Total(if run[0].Incr? then start + run[0].delta else start, run[1..])
  }

  /** Every partial sum fits 64 bits. */
  predicate InRange(start: int, run: seq<Event>)
    decreases |run|
  {
    run != [] ==>
      if run[0].Incr? then -I64 <= start + run[0].delta < I64 && InRange(start + run[0].delta, run[1..])
      else InRange(start, run[1..])
  }

  lemma CounterReads(m: Store, k: string, v: int, now: int)
    requires k in m && m[k] == Entry(PrintInt(v), None) && -I64 <= v < I64
    ensures ValueOf(GetAt(m, k, now)) == Number(v)
  {
    StollPrint(v);
  }

  /** A key that holds a printed number and no deadline counts exactly, whatever happens around it. */
  lemma {:induction false} CounterKeepsCount(m: Store, k: string, v: int, run: seq<Event>)
    requires k in m && m[k] == Entry(PrintInt(v), None) && -I64 <= v < I64
    requires AllSpare(m, k, run) && InRange(v, run)
    ensures Outcomes(m, k, run) == Sums(v, run)
    ensures var r := After(m, k, run); k in r && r[k] == Entry(PrintInt(Total(v, run)), None)
    decreases |run|
  {
    if run != [] {
      var ev := run[0];
      if ev.Incr? {
        CounterReads(m, k, v, ev.at);
        CounterKeepsCount(StepOn(m, k, ev), k, v + ev.delta, run[1..]);
      } else {
        SparedKeyStays(m, k, ev.event);
        CounterKeepsCount(StepOn(m, k, ev), k, v, run[1..]);
      }
    }
  }

  lemma SparedKeyStays(m: Store, k: string, ev: Ttl.Event)
    requires k in m && m[k].expiresAt == None && Spares(m, ev, k)
    ensures k in Step(m, ev) && Step(m, ev)[k] == m[k]
  {
  }

  /**
   * From any store where the key reads as `v` at the first increment (absent, expired, empty, or a
   * number, with or without a deadline), each increment returns `v` plus the sum so far, `read` agrees
   * with the last of them at any later time, and the key has lost its deadline.
   */
  lemma CounterRun(m: Store, k: string, v: int, run: seq<Event>, later: int)
    requires run != [] && run[0].Incr? && ValueOf(GetAt(m, k, run[0].at)) == Number(v)
    requires AllSpare(m, k, run) && InRange(v, run)
    ensures Outcomes(m, k, run) == Sums(v, run)
    ensures var r := After(m, k, run);
            k in r && r[k].expiresAt == None && ValueOf(GetAt(r, k, later)) == Number(Total(v, run))
  {
    var first := v + run[0].delta;
    var m1 := StepOn(m, k, run[0]);
    CounterKeepsCount(m1, k, first, run[1..]);
    TotalInRange(first, run[1..]);
    CounterReads(After(m, k, run), k, Total(v, run), later);
  }

  /** A counter that starts from nothing, an expired key or an empty value counts from zero. */
  lemma CounterFromNothing(m: Store, k: string, run: seq<Event>, later: int)
    requires run != [] && run[0].Incr? && GetAt(m, k, run[0].at) in {None, Some("")}
    requires AllSpare(m, k, run) && InRange(0, run)
    ensures IncrementAt(m, k, run[0].delta, run[0].at) ==
            (m[k := Entry(PrintInt(run[0].delta), None)], Sum(run[0].delta))
    ensures Outcomes(m, k, run) == Sums(0, run)
    ensures ValueOf(GetAt(After(m, k, run), k, later)) == Number(Total(0, run))
  {
    CounterRun(m, k, 0, run, later);
  }

  /** A stored number counts on whatever non-digits follow it; text that is no number throws. */
  lemma CounterOverText(m: Store, k: string, v: int, rest: string, s: string, delta: int, now: int)
    requires -I64 <= v < I64 && (rest != "" ==> !IsDigit(rest[0]))
    requires s != "" && !(IsSpace(s[0]) || s[0] == '-' || s[0] == '+' || IsDigit(s[0]))
    ensures GetAt(m, k, now) == Some(PrintInt(v) + rest) ==>
              IncrementAt(m, k, delta, now) ==
              if -I64 <= v + delta < I64 then (m[k := Entry(PrintInt(v + delta), None)], Sum(v + delta))
              else (m, Overflows)
    ensures GetAt(m, k, now) == Some(s) ==> IncrementAt(m, k, delta, now) == (m, Throws)
  {
    ReadPrinted(v, rest);
    NotANumber(s);
  }

  lemma {:induction false} TotalInRange(v: int, run: seq<Event>)
    requires -I64 <= v < I64 && InRange(v, run)
    ensures -I64 <= Total(v, run) < I64
    decreases |run|
  {
    if run != [] {
      TotalInRange(if run[0].Incr? then v + run[0].delta else v, run[1..]);
    }
  }

  class CounterStore {
    const storage: StorageEngine

    constructor (storage: StorageEngine)
      ensures this.storage == storage
    {
      this.storage := storage;
    }

    method Increment(key: string, delta: int) returns (r: Outcome)
      requires storage.Valid()
      modifies storage, storage.clock, storage.table.Repr
      ensures storage.Valid() && fresh(storage.table.Repr - old(storage.table.Repr))
      ensures storage.clock.now >= old(storage.clock.now)
      ensures storage.store ==
              if r.Sum? then old(storage.store)[key := Entry(PrintInt(r.value), None)] else old(storage.store)
      ensures (storage.store, r) == IncrementAt(old(storage.store), key, delta, storage.clock.now)
    {
      var raw := storage.Get(key);
      var current := ValueOf(raw);
      if !current.Number? {
        return Throws;
      }
      var next := current.value + delta;
      if !(-I64 <= next < I64) {
        return Overflows;
      }
      var _ := storage.Set(key, PrintInt(next));
      return Sum(next);
    }

    method Decrement(key: string, delta: int) returns (r: Outcome)
      requires storage.Valid()
      modifies storage, storage.clock, storage.table.Repr
      ensures storage.Valid() && fresh(storage.table.Repr - old(storage.table.Repr))
      ensures storage.clock.now >= old(storage.clock.now)
      ensures (storage.store, r) == IncrementAt(old(storage.store), key, -delta, storage.clock.now)
    {
      r := Increment(key, -delta);
    }

    method Read(key: string) returns (r: Option<Parsed>)
      requires storage.Valid()
      modifies storage.clock
      ensures r == var raw := GetAt(storage.store, key, storage.clock.now);
                   if raw == None then None else Some(ValueOf(raw))
    {
      var raw := storage.Get(key);
      if raw == None {
        return None;
      }
      return Some(ValueOf(raw));
    }
  }
}
