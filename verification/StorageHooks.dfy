/** The store and its log, changed together by the hooks, and the log replayed into an engine. */
module StorageHooks {
  import opened Entries
  import opened Text
  import opened TextLines
  import opened Buckets
  import opened Ttl
  import opened Engine
  import opened AofLogs

  // ----- Whole runs -----

  datatype Op = HookSet(key: string, value: string) | HookRemove(key: string) | Rewrite

  datatype State = State(table: Table, log: string)

  const START := State(Empty(4096), "")

  function HookStep(h: Hash, s: State, op: Op): (r: State)
    requires s.table != []
    ensures r.table != []
  {
    match op
    case HookSet(k, v) => State(Insert(h, s.table, k, Entry(v, None)), s.log + (SetLine(k, v) + "\n"))
    case HookRemove(k) =>
      if Has(h, s.table, k) then State(Erase(h, s.table, k), s.log + (DelLine(k) + "\n")) else s
    case Rewrite => State(s.table, RewriteText(Dump(s.table)))
  }

  function Run(h: Hash, ops: seq<Op>): (r: State)
    ensures r.table != []
  {
    if ops == [] then START else HookStep(h, Run(h, ops[..|ops| - 1]), ops[|ops| - 1])
  }

  /** What the calls of a run leave stored, on a plain map. */
  function Stored(ops: seq<Op>): Store {
    if ops == [] then map[]
    else
      var m := Stored(ops[..|ops| - 1]);
      match ops[|ops| - 1]
      case HookSet(k, v) => m[k := Entry(v, None)]
      case HookRemove(k) => m - {k}
      case Rewrite => m
  }

  /** What the calls since the last compaction append to the log; a remove of an absent key logs nothing. */
  function Appended(ops: seq<Op>): string {
    if ops == [] then ""
    else
      var before := ops[..|ops| - 1];
      match ops[|ops| - 1]
      case HookSet(k, v) => Appended(before) + ("SET " + k + " " + v + "\n")
      case HookRemove(k) => Appended(before) + if k in Stored(before) then "DEL " + k + "\n" else ""
      case Rewrite => ""
  }

  /** The file the last compaction of a run left, or nothing. */
  function Compacted(h: Hash, ops: seq<Op>): string {
    if ops == [] then ""
    else if ops[|ops| - 1].Rewrite? then RewriteText(Dump(Run(h, ops[..|ops| - 1]).table))
    else Compacted(h, ops[..|ops| - 1])
  }

  ghost predicate CleanOps(ops: seq<Op>) {
    forall i :: 0 <= i < |ops| && ops[i].HookSet? ==> Clean(ops[i].key, ops[i].value)
  }

  ghost predicate CleanStore(m: Store) {
    forall k :: k in m ==> Clean(k, m[k].value)
  }

  /** The log stands for the store. */
  ghost predicate InStep(h: Hash, s: State) {
    && WellFormed(h, s.table) && Balanced(s.table) && CleanStore(Contents(s.table))
    && Terminated(s.log) && Replayed(s.log) == Values(Contents(s.table))
  }

  lemma DumpIsClean(h: Hash, t: Table)
    requires WellFormed(h, t) && CleanStore(Contents(t))
    ensures CleanPairs(Dump(t))
  {
    DumpHolds(h, t);
  }

  lemma SetKeepsInStep(h: Hash, s: State, k: string, v: string)
    requires InStep(h, s) && Clean(k, v)
    ensures InStep(h, HookStep(h, s, HookSet(k, v)))
  {
    InsertRefines(h, s.table, k, Entry(v, None));
    SetLineReplays(s.log, k, v);
    ValuesOfUpdate(Contents(s.table), k, Entry(v, None));
  }

  lemma SetLineReplays(log: string, k: string, v: string)
    requires Terminated(log) && Clean(k, v)
    ensures var r := log + (SetLine(k, v) + "\n"); Terminated(r) && Replayed(r) == Replayed(log)[k := v]
  {
    AppendReplays(log, SetLine(k, v));
    ApplySetLine(Replayed(log), k, v);
  }

  lemma RemoveKeepsInStep(h: Hash, s: State, k: string)
    requires InStep(h, s)
    ensures InStep(h, HookStep(h, s, HookRemove(k)))
  {
    LookupIsContents(h, s.table, k);
    if Has(h, s.table, k) {
      EraseRefines(h, s.table, k);
      AppendReplays(s.log, DelLine(k));
      ApplyDelLine(Replayed(s.log), k);
      ValuesOfUpdate(Contents(s.table), k, Entry("", None));
    }
  }

  lemma RewriteKeepsInStep(h: Hash, s: State)
    requires InStep(h, s)
    ensures InStep(h, HookStep(h, s, Rewrite))
  {
    DumpIsClean(h, s.table);
    RewriteTextReplays(Dump(s.table));
    PairMapOfPairs(Flatten(s.table));
  }

  lemma {:induction false} CleanRunInStep(h: Hash, ops: seq<Op>)
    requires CleanOps(ops)
    ensures InStep(h, Run(h, ops))
  {
    if ops == [] {
      EmptyIsEmpty(h, 4096);
    } else {
      var before := ops[..|ops| - 1];
      CleanRunInStep(h, before);
      match ops[|ops| - 1]
      case HookSet(k, v) => SetKeepsInStep(h, Run(h, before), k, v);
      case HookRemove(k) => RemoveKeepsInStep(h, Run(h, before), k);
      case Rewrite => RewriteKeepsInStep(h, Run(h, before));
    }
  }

  lemma {:induction false} RunWellFormed(h: Hash, ops: seq<Op>)
    ensures WellFormed(h, Run(h, ops).table) && Balanced(Run(h, ops).table)
  {
    if ops == [] {
      EmptyIsEmpty(h, 4096);
    } else {
      var s := Run(h, ops[..|ops| - 1]);
      RunWellFormed(h, ops[..|ops| - 1]);
      match ops[|ops| - 1]
      case HookSet(k, v) => InsertRefines(h, s.table, k, Entry(v, None));
      case HookRemove(k) => EraseRefines(h, s.table, k);
      case Rewrite =>
    }
  }

  /** The table of every run holds the plain map of its calls. */
  lemma {:induction false} RunStores(h: Hash, ops: seq<Op>)
    ensures Contents(Run(h, ops).table) == Stored(ops)
  {
    if ops == [] {
      EmptyIsEmpty(h, 4096);
    } else {
      var before := ops[..|ops| - 1];
      var t := Run(h, before).table;
      RunStores(h, before);
      RunWellFormed(h, before);
      match ops[|ops| - 1]
      case HookSet(k, v) => InsertRefines(h, t, k, Entry(v, None));
      case HookRemove(k) =>
        LookupIsContents(h, t, k);
        EraseRefines(h, t, k);
      case Rewrite =>
    }
  }

  /** The log of every run is the last compacted file and a line for each effective call since. */
  lemma {:induction false} RunLogs(h: Hash, ops: seq<Op>)
    ensures Run(h, ops).log == Compacted(h, ops) + Appended(ops)
  {
    if ops != [] {
      var before := ops[..|ops| - 1];
      var t, file, tail := Run(h, before).table, Compacted(h, before), Appended(before);
      RunLogs(h, before);
      RunStores(h, before);
      RunWellFormed(h, before);
      match ops[|ops| - 1]
      case HookSet(k, v) => Assoc(file, tail, "SET " + k + " " + v + "\n");
      case HookRemove(k) =>
        LookupIsContents(h, t, k);
        Assoc(file, tail, if k in Stored(before) then "DEL " + k + "\n" else "");
      case Rewrite => assert RewriteText(Dump(t)) + "" == RewriteText(Dump(t));
    }
  }

  /** Right after a set that is not clean, the log does not stand for the store. */
  lemma DirtySetShows(h: Hash, ops: seq<Op>)
    requires ops != [] && ops[|ops| - 1].HookSet? && !Clean(ops[|ops| - 1].key, ops[|ops| - 1].value)
    ensures Replayed(Run(h, ops).log) != Values(Contents(Run(h, ops).table))
  {
    var s, op := Run(h, ops[..|ops| - 1]), ops[|ops| - 1];
    RunWellFormed(h, ops[..|ops| - 1]);
    InsertRefines(h, s.table, op.key, Entry(op.value, None));
    ValuesOfUpdate(Contents(s.table), op.key, Entry(op.value, None));
    LogHoldsOnlyClean(Run(h, ops).log, op.key);
  }

  /**
   * For every run of hook sets, hook removes and compactions from an empty store and log: replaying
   * the log gives the key-to-value map that the calls so far make, after every step, exactly when no key
   * that was set has a space or newline and no value a newline.
   */
  lemma LogTracksStoreIff(h: Hash, ops: seq<Op>)
    ensures CleanOps(ops) <==>
            forall n :: 0 <= n <= |ops| ==> Replayed(Run(h, ops[..n]).log) == Values(Stored(ops[..n]))
  {
    if CleanOps(ops) {
      forall n | 0 <= n <= |ops| ensures Replayed(Run(h, ops[..n]).log) == Values(Stored(ops[..n])) {
        CleanRunInStep(h, ops[..n]);
        RunStores(h, ops[..n]);
      }
    } else {
      var i :| 0 <= i < |ops| && ops[i].HookSet? && !Clean(ops[i].key, ops[i].value);
      DirtySetShows(h, ops[..i + 1]);
      RunStores(h, ops[..i + 1]);
    }
  }

  // ----- The classes -----

  /** The log file; `text` is its contents on disk. */
  class AofLog {
    var text: string

    constructor ()
      ensures text == ""
    {
      text := "";
    }

    method WriteLine(line: string)
      modifies this
      ensures text == old(text) + (line + "\n")
    {
      text := text + (line + "\n");
    }

    method AppendSet(key: string, value: string)
      modifies this
      ensures text == old(text) + ("SET " + key + " " + value + "\n")
    {
      WriteLine("SET " + key + " " + value);
    }

    method AppendDel(key: string)
      modifies this
      ensures text == old(text) + ("DEL " + key + "\n")
    {
      WriteLine("DEL " + key);
    }

    /** Applies every line of the file to the engine. */
    method Replay(engine: StorageEngine)
      requires engine.Valid()
      modifies engine, engine.table.Repr
      ensures engine.Valid() && fresh(engine.table.Repr - old(engine.table.Repr))
      ensures Values(engine.store) == ApplyLines(Values(old(engine.store)), Lines(old(text)))
    {
      var lines := Lines(text);
      ghost var start := Values(engine.store);
      ghost var m := start;
      for i := 0 to |lines|
        invariant engine.Valid() && fresh(engine.table.Repr - old(engine.table.Repr))
        invariant m == Values(engine.store)
        invariant m == ApplyLines(start, lines[..i])
      {
        assert lines[..i + 1][..i] == lines[..i];
        ReplayLine(engine, lines[i]);
        m := ApplyLine(m, lines[i]);
      }
      assert lines[..|lines|] == lines;
    }

    method ReplayLine(engine: StorageEngine, line: string)
      requires engine.Valid()
      modifies engine, engine.table.Repr
      ensures engine.Valid() && fresh(engine.table.Repr - old(engine.table.Repr))
      ensures Values(engine.store) == ApplyLine(Values(old(engine.store)), line)
    {
      if "SET " <= line {
        var rest := line[4..];
        var space := IndexOfChar(rest, ' ');
        if space < |rest| {
          ReplaySet(engine, rest[..space], rest[space + 1..]);
        }
      } else if "DEL " <= line {
        ValuesOfUpdate(engine.store, line[4..], Entry("", None));
        var _ := engine.Remove(line[4..]);
      }
    }

    method ReplaySet(engine: StorageEngine, key: string, value: string)
      requires engine.Valid()
      modifies engine, engine.table.Repr
      ensures engine.Valid() && fresh(engine.table.Repr - old(engine.table.Repr))
      ensures Values(engine.store) == Values(old(engine.store))[key := value]
    {
      ValuesOfUpdate(engine.store, key, Entry(value, None));
      var _ := engine.Set(key, value);
    }

    method RewriteFrom(engine: StorageEngine)
      requires engine.Valid()
      modifies this
      ensures text == RewriteText(Dump(engine.table.chains))
    {
      var entries := engine.DumpEntries();
      var out := REWRITE_HEADER + "\n";
      RewriteTextStart();
      for i := 0 to |entries|
        invariant out == RewriteText(entries[..i])
      {
        RewriteTextStep(entries, i);
        out := out + "SET " + entries[i].0 + " " + entries[i].1 + "\n";
      }
      assert entries[..|entries|] == entries;
      text := out;
    }
  }

  lemma RewriteTextStart()
    ensures RewriteText([]) == REWRITE_HEADER + "\n"
  {
    assert [REWRITE_HEADER][..0] == [];
    assert Unlines([]) + REWRITE_HEADER == REWRITE_HEADER;
  }

  lemma RewriteTextStep(pairs: seq<(string, string)>, i: nat)
    requires i < |pairs|
    ensures RewriteText(pairs[..i + 1]) == RewriteText(pairs[..i]) + "SET " + pairs[i].0 + " " + pairs[i].1 + "\n"
  {
    var line := SetLine(pairs[i].0, pairs[i].1);
    assert pairs[..i + 1][..i] == pairs[..i];
    assert RewriteLines(pairs[..i + 1])[..|RewriteLines(pairs[..i])|] == RewriteLines(pairs[..i]);
    assert RewriteText(pairs[..i + 1]) == RewriteText(pairs[..i]) + line + "\n";
  }

  class StorageHooks {
    const storage: StorageEngine
    const aof: AofLog

    ghost predicate Valid()
      reads this, storage, storage.table, storage.table.Repr
    {
      storage.Valid() && aof !in storage.table.Repr
    }

    ghost function View(): State
      reads this, storage, storage.table, aof
    {
      State(storage.table.chains, aof.text)
    }

    constructor (storage: StorageEngine, aof: AofLog)
      requires storage.Valid() && aof !in storage.table.Repr
      ensures Valid() && this.storage == storage && this.aof == aof
    {
      this.storage, this.aof := storage, aof;
    }

    method Set(key: string, value: string) returns (ok: bool)
      requires Valid()
      modifies storage, storage.table.Repr, aof
      ensures Valid() && fresh(storage.table.Repr - old(storage.table.Repr))
      ensures ok && storage.store == old(storage.store)[key := Entry(value, None)]
      ensures aof.text == old(aof.text) + ("SET " + key + " " + value + "\n")
      ensures View() == HookStep(storage.table.hash, old(View()), HookSet(key, value))
    {
      ok := storage.Set(key, value);
      if ok {
        aof.AppendSet(key, value);
      }
    }

    method Remove(key: string) returns (ok: bool)
      requires Valid()
      modifies storage, storage.table.Repr, aof
      ensures Valid() && storage.table.Repr == old(storage.table.Repr)
      ensures ok == (key in old(storage.store)) && storage.store == old(storage.store) - {key}
      ensures aof.text == old(aof.text) + if ok then "DEL " + key + "\n" else ""
      ensures View() == HookStep(storage.table.hash, old(View()), HookRemove(key))
    {
      LookupIsContents(storage.table.hash, storage.table.chains, key);
      ok := storage.Remove(key);
      if ok {
        aof.AppendDel(key);
      }
    }
  }

  // ----- The classes follow the runs -----

  method Perform(hooks: StorageHooks, op: Op)
    requires hooks.Valid()
    modifies hooks.storage, hooks.storage.table.Repr, hooks.aof
    ensures hooks.Valid() && fresh(hooks.storage.table.Repr - old(hooks.storage.table.Repr))
    ensures hooks.View() == HookStep(hooks.storage.table.hash, old(hooks.View()), op)
  {
    match op
    case HookSet(k, v) => var _ := hooks.Set(k, v);
    case HookRemove(k) => var _ := hooks.Remove(k);
    case Rewrite => hooks.aof.RewriteFrom(hooks.storage);
  }

  /**
   * A server that makes the calls on a new engine and log, and one that starts later from the log it
   * left: both hold what the calls made, if every key and value set was clean.
   */
  method PerformThenRestart(hash: Hash, ops: seq<Op>) returns (first: StorageEngine, second: StorageEngine)
    ensures first.Valid() && first.store == Stored(ops)
    ensures second.Valid() && (CleanOps(ops) ==> Values(second.store) == Values(Stored(ops)))
  {
    var clock := new Clock();
    first := new StorageEngine(hash, clock);
    var aof := new AofLog();
    var hooks := new StorageHooks(first, aof);
    PerformAll(hooks, ops);
    RunStores(hash, ops);
    second := Restart(hash, aof);
    if CleanOps(ops) {
      CleanRunInStep(hash, ops);
    }
  }

  method PerformAll(hooks: StorageHooks, ops: seq<Op>)
    requires hooks.Valid() && hooks.View() == START
    modifies hooks.storage, hooks.storage.table.Repr, hooks.aof
    ensures hooks.Valid() && fresh(hooks.storage.table.Repr - old(hooks.storage.table.Repr))
    ensures hooks.View() == Run(hooks.storage.table.hash, ops)
  {
    ghost var hash := hooks.storage.table.hash;
    for i := 0 to |ops|
      invariant hooks.Valid() && fresh(hooks.storage.table.Repr - old(hooks.storage.table.Repr))
      invariant hooks.View() == Run(hash, ops[..i])
    {
      assert ops[..i + 1][..i] == ops[..i];
      Perform(hooks, ops[i]);
    }
    assert ops[..|ops|] == ops;
  }

  method Restart(hash: Hash, aof: AofLog) returns (engine: StorageEngine)
    ensures engine.Valid() && fresh(engine) && fresh(engine.table.Repr)
    ensures Values(engine.store) == Replayed(aof.text)
  {
    var clock := new Clock();
    engine := new StorageEngine(hash, clock);
    assert Values(engine.store) == map[];
    aof.Replay(engine);
  }
}
