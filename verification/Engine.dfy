/** `StorageEngine`: the table, a clock that only moves forward, and the operations that use both. */
module Engine {
  import opened Entries
  import opened Buckets
  import opened HashTables
  import opened Scanner
  import opened Ttl

  /** `steady_clock`: every reading is at or after the one before. */
  class Clock {
    var now: int

    constructor () {
      now := 0;
    }

    method Read() returns (t: int)
      modifies this
      ensures t == now && now >= old(now)
    {
      var passed :| passed >= 0;
      now := now + passed;
      return now;
    }
  }

  class StorageEngine {
    const clock: Clock
    const table: HashTable
    ghost var store: Store  // the map the table stands for

    ghost predicate Valid()
      reads this, table, table.Repr
    {
      && table.Valid() && {this, clock} !! table.Repr
      && store == Contents(table.chains)
    }

    constructor (hash: Hash, clock: Clock)
      ensures Valid() && this.clock == clock && table.hash == hash && fresh(table.Repr)
      ensures table.chains == Empty(4096) && store == map[]
    {
      this.clock := clock;
      table := new HashTable(hash, 4096);
      store := map[];
      new;
      EmptyIsEmpty(hash, 4096);
    }

    /** `table.insert` seen as an update of the map. */
    method Store(key: string, entry: Entry)
      requires Valid()
      modifies this, table.Repr
      ensures Valid() && fresh(table.Repr - old(table.Repr))
      ensures table.chains == Insert(table.hash, old(table.chains), key, entry)
      ensures store == old(store)[key := entry]
    {
      InsertRefines(table.hash, table.chains, key, entry);
      var _ := table.Insert(key, entry);
      store := store[key := entry];
    }

    /** `table.find` seen as a lookup in the map. */
    method Fetch(key: string) returns (found: Option<Entry>)
      requires Valid()
      ensures found == if key in store then Some(store[key]) else None
    {
      LookupIsContents(table.hash, table.chains, key);
      found := table.Find(key);
    }

    method Set(key: string, value: string) returns (ok: bool)
      requires Valid()
      modifies this, table.Repr
      ensures Valid() && fresh(table.Repr - old(table.Repr))
      ensures table.chains == Insert(table.hash, old(table.chains), key, Entry(value, None))
      ensures ok && store == old(store)[key := Entry(value, None)]
    {
      Store(key, Entry(value, None));
      return true;
    }

    method IsExpired(key: string) returns (expired: bool)
      requires Valid()
      modifies clock
      ensures clock.now >= old(clock.now)
      ensures expired == (key in store && store[key].expiresAt.Some? && clock.now >= store[key].expiresAt.value)
    {
      var found := Fetch(key);
      if found == None || found.value.expiresAt == None {
        return false;
      }
      var now := clock.Read();
      return now >= found.value.expiresAt.value;
    }

    method Get(key: string) returns (value: Option<string>)
      requires Valid()
      modifies clock
      ensures clock.now >= old(clock.now)
      ensures value ==
              if key in store && (store[key].expiresAt == None || clock.now < store[key].expiresAt.value)
              then Some(store[key].value) else None
    {
      var expired := IsExpired(key);
      if expired {
        return None;
      }
      var found := Fetch(key);
      if found == None {
        return None;
      }
      return Some(found.value.value);
    }

    method Remove(key: string) returns (removed: bool)
      requires Valid()
      modifies this, table.Repr
      ensures Valid() && table.Repr == old(table.Repr)
      ensures table.chains == Erase(table.hash, old(table.chains), key)
      ensures removed == (key in old(store)) && store == old(store) - {key}
    {
      EraseRefines(table.hash, table.chains, key);
      LookupIsContents(table.hash, table.chains, key);
      removed := table.Erase(key);
      store := store - {key};
    }

    /** Ignores deadlines. */
    method Exists(key: string) returns (found: bool)
      requires Valid()
      ensures found == (key in store)
    {
      LookupIsContents(table.hash, table.chains, key);
      found := table.Contains(key);
    }

    /** Counts expired entries too. */
    method EntryCount() returns (count: nat)
      requires Valid()
      ensures count == |store|
    {
      WalkIsContents(table.hash, table.chains);
      return table.size;
    }

    method ReadClock() returns (t: int)
      requires Valid()
      modifies clock
      ensures Valid() && t == clock.now && clock.now >= old(clock.now)
    {
      t := clock.Read();
    }

    method SetTtl(key: string, ttl: int) returns (ok: bool)
      requires Valid()
      modifies this, clock, table.Repr
      ensures Valid() && fresh(table.Repr - old(table.Repr)) && clock.now >= old(clock.now)
      ensures ok == (key in old(store))
      ensures store == if ok then old(store)[key := Entry(old(store)[key].value, Some(clock.now + ttl))] else old(store)
    {
      var found := Fetch(key);
      if found == None {
        return false;
      }
      SetDeadline(key, found.value, ttl);
      return true;
    }

    method Touch(key: string) returns (ghost first: int)
      requires Valid()
      modifies this, clock, table.Repr
      ensures Valid() && fresh(table.Repr - old(table.Repr))
      ensures old(clock.now) <= first <= clock.now
      ensures store == Step(old(store), Ttl.Touch(key, first, clock.now))
    {
      first := clock.now;
      var found := Fetch(key);
      if found == None || found.value.expiresAt == None {
        return;
      }
      var before := ReadClock();
      first := before;
      var remaining := found.value.expiresAt.value - before;
      ghost var was := store;
      SetDeadline(key, found.value, remaining);
      TouchStep(was, key, before, clock.now);
    }

    /** Stores the entry again with a deadline `wait` from now. */
    method SetDeadline(key: string, entry: Entry, wait: int)
      requires Valid()
      modifies this, clock, table.Repr
      ensures Valid() && fresh(table.Repr - old(table.Repr)) && clock.now >= old(clock.now)
      ensures store == old(store)[key := Entry(entry.value, Some(clock.now + wait))]
    {
      var now := ReadClock();
      Store(key, WithDeadline(entry, now + wait));
    }

    /** The background sweep: collect the expired keys, then erase them. */
    method PurgeExpired() returns (ghost removed: set<string>)
      requires Valid()
      modifies this, clock, table.Repr
      ensures Valid() && table.Repr == old(table.Repr) && clock.now >= old(clock.now)
      ensures SweepRemoves(old(store), removed, old(clock.now), clock.now)
      ensures store == old(store) - removed
    {
      var expired := CollectExpired();
      removed := KeySet(expired);
      EraseAll(expired);
    }

    method CollectExpired() returns (expired: seq<string>)
      requires Valid()
      modifies clock
      ensures Valid() && clock.now >= old(clock.now)
      ensures SweepRemoves(store, KeySet(expired), old(clock.now), clock.now)
    {
      WalkIsContents(table.hash, table.chains);
      var entries := table.ForEach();
      assert forall x :: x in entries ==> x.key in store && store[x.key] == x.entry;
      expired := ExpiredAmong(entries);
      forall k | k in store && ExpiredAt(store[k], old(clock.now)) ensures k in expired {
        assert Binding(k, store[k]) in entries;
      }
    }

    /** Reads the clock once for each entry that has a deadline. */
    method ExpiredAmong(entries: seq<Binding>) returns (expired: seq<string>)
      modifies clock
      ensures clock.now >= old(clock.now)
      ensures forall k :: k in expired ==> exists x :: x in entries && x.key == k && ExpiredAt(x.entry, clock.now)
      ensures forall x :: x in entries && ExpiredAt(x.entry, old(clock.now)) ==> x.key in expired
    {
      expired := [];
      for i := 0 to |entries|
        invariant clock.now >= old(clock.now)
        invariant forall k :: k in expired ==> exists x :: x in entries && x.key == k && ExpiredAt(x.entry, clock.now)
        invariant forall j :: 0 <= j < i && ExpiredAt(entries[j].entry, old(clock.now)) ==> entries[j].key in expired
      {
        if entries[i].entry.expiresAt.Some? {
          var now := clock.Read();
          if now >= entries[i].entry.expiresAt.value {
            assert entries[i] in entries;
            expired := expired + [entries[i].key];
          }
        }
      }
    }

    method EraseAll(keys: seq<string>)
      requires Valid()
      modifies this, table.Repr
      ensures Valid() && table.Repr == old(table.Repr)
      ensures store == old(store) - KeySet(keys)
    {
      for i := 0 to |keys|
        invariant Valid() && table.Repr == old(table.Repr)
        invariant store == old(store) - KeySet(keys[..i])
      {
        EraseOneMore(old(store), keys, i);
        var _ := Remove(keys[i]);
      }
      assert keys[..|keys|] == keys;
    }

    method ClearAll()
      requires Valid()
      modifies this, table.Repr
      ensures Valid() && table.Repr == old(table.Repr)
      ensures table.chains == Empty(|old(table.chains)|) && store == map[]
    {
      EmptyIsEmpty(table.hash, |table.chains|);
      table.Clear();
      store := map[];
    }

    /** Every key and value in walk order: deadlines are dropped, expired entries are not. */
    method DumpEntries() returns (pairs: seq<(string, string)>)
      requires Valid()
      ensures pairs == Dump(table.chains)
    {
      var entries := table.ForEach();
      pairs := [];
      for i := 0 to |entries|
        invariant pairs == PairsOf(entries[..i])
      {
        assert entries[..i + 1][..i] == entries[..i];
        pairs := pairs + [(entries[i].key, entries[i].entry.value)];
      }
      assert entries[..|entries|] == entries;
    }

    method ScanKeys(cursor: Cursor, count: nat, pattern: string) returns (page: Page)
      requires Valid()
      ensures page == PageAt(table.chains, cursor, count, pattern)
    {
      page := Scan(table, cursor, count, pattern);
    }
  }

  function KeySet(keys: seq<string>): set<string> {
    set k | k in keys
  }

  lemma EraseOneMore(m: Store, keys: seq<string>, i: nat)
    requires i < |keys|
    ensures m - KeySet(keys[..i + 1]) == m - KeySet(keys[..i]) - {keys[i]}
  {
    assert keys[..i + 1] == keys[..i] + [keys[i]];
    assert KeySet(keys[..i + 1]) == KeySet(keys[..i]) + {keys[i]};
  }

  // ----- Every sequence of calls is a run of timed events -----

  datatype Call =
    | CallSet(key: string, value: string)
    | CallRemove(key: string)
    | CallClear
    | CallGet(key: string)
    | CallSetTtl(key: string, ttl: int)
    | CallTouch(key: string)
    | CallPurge

  function CallOf(ev: Event): Call {
    match ev
    case Set(k, v) => CallSet(k, v)
    case Remove(k) => CallRemove(k)
    case Clear => CallClear
    case Get(k, _) => CallGet(k)
    case SetTtl(k, ttl, _) => CallSetTtl(k, ttl)
    case Touch(k, _, _) => CallTouch(k)
    case Sweep(_, _, _) => CallPurge
  }

  /** Makes one call; `ev` is the call with the clock readings it took. */
  method Serve(engine: StorageEngine, call: Call) returns (answers: seq<Option<string>>, ghost ev: Event)
    requires engine.Valid()
    modifies engine, engine.clock, engine.table.Repr
    ensures engine.Valid() && fresh(engine.table.Repr - old(engine.table.Repr))
    ensures CallOf(ev) == call && InOrder(ev, old(engine.clock.now))
    ensures engine.clock.now == After(ev, old(engine.clock.now))
    ensures ev.Sweep? ==> SweepRemoves(old(engine.store), ev.removed, ev.start, ev.end)
    ensures engine.store == Step(old(engine.store), ev) && answers == AnswersTo(old(engine.store), ev)
  {
    answers := [];
    var clock := engine.clock;
    match call
    case CallSet(k, v) =>
      var _ := engine.Set(k, v);
      ev := Ttl.Set(k, v);
    case CallRemove(k) =>
      var _ := engine.Remove(k);
      ev := Ttl.Remove(k);
    case CallClear =>
      engine.ClearAll();
      ev := Ttl.Clear;
    case CallGet(k) =>
      var value := engine.Get(k);
      answers, ev := [value], Ttl.Get(k, clock.now);
    case CallSetTtl(k, ttl) =>
      var _ := engine.SetTtl(k, ttl);
      ev := Ttl.SetTtl(k, ttl, clock.now);
    case CallTouch(k) =>
      ghost var first := engine.Touch(k);
      ev := Ttl.Touch(k, first, clock.now);
    case CallPurge =>
      ghost var start, removed := clock.now, {};
      removed := engine.PurgeExpired();
      ev := Sweep(start, clock.now, removed);
  }

  /** Any calls in any order make a legal run, and the gets answer what that run answers. */
  method ServeAll(engine: StorageEngine, calls: seq<Call>)
    returns (answers: seq<Option<string>>, ghost run: seq<Event>)
    requires engine.Valid()
    modifies engine, engine.clock, engine.table.Repr
    ensures engine.Valid()
    ensures |run| == |calls| && forall i :: 0 <= i < |run| ==> CallOf(run[i]) == calls[i]
    ensures Legal(old(engine.store), run, old(engine.clock.now))
    ensures engine.store == Final(old(engine.store), run) && answers == Answers(old(engine.store), run)
    ensures engine.clock.now == End(run, old(engine.clock.now))
  {
    answers, run := [], [];
    ghost var m, start := engine.store, engine.clock.now;
    for i := 0 to |calls|
      invariant engine.Valid() && fresh(engine.table.Repr - old(engine.table.Repr))
      invariant |run| == i && forall j :: 0 <= j < i ==> CallOf(run[j]) == calls[j]
      invariant Legal(m, run, start) && engine.clock.now == End(run, start)
      invariant engine.store == Final(m, run) && answers == Answers(m, run)
    {
      ghost var ev;
      var more;
      more, ev := Serve(engine, calls[i]);
      AppendEvent(m, run, ev, start);
      answers, run := answers + more, run + [ev];
    }
  }

  function PairsOf(s: seq<Binding>): seq<(string, string)> {
    if s == [] then [] else PairsOf(s[..|s| - 1]) + [(s[|s| - 1].key, s[|s| - 1].entry.value)]
  }

  function Dump(t: Table): seq<(string, string)> {
    PairsOf(Flatten(t))
  }

  /** The key-to-value map of a store, without deadlines. */
  function Values(m: Store): map<string, string> {
    map k | k in m :: m[k].value
  }
}
