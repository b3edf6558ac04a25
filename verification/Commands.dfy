/** What each command line does to the store, the handlers that do it, and what lines can put there. */
module Commands {
  import opened Entries
  import opened Text
  import opened TextLines
  import opened Buckets
  import opened Ttl
  import opened Engine
  import opened Parser
  import opened Resp
  import opened AofLogs
  import opened Snapshot
  import C = Counters

  function Upper(s: string): (r: string)
    ensures |r| == |s|
  {
    seq(|s|, i requires 0 <= i < |s| => if 'a' <= s[i] <= 'z' then s[i] - 'a' + 'A' else s[i])
  }

  datatype CommandType =
    | SetType | MsetType | DeleteType | FlushdbType | IncrType | DecrType | IncrbyType | ExpireType | ReadOnly

  /** `command_type_from_name`; the commands that do not change the store are not told apart. */
  function TypeOf(name: string): CommandType {
    var key := Upper(name);
    if key == "SET" then SetType
    else if key == "MSET" then MsetType
    else if key == "DEL" || key == "DELETE" then DeleteType
    else if key == "FLUSHDB" then FlushdbType
    else if key == "INCR" then IncrType
    else if key == "DECR" then DecrType
    else if key == "INCRBY" then IncrbyType
    else if key == "EXPIRE" then ExpireType
    else ReadOnly
  }

  /** MSET's arguments two by two. */
  function PairUp(args: seq<string>): seq<(string, string)>
    requires |args| % 2 == 0
  {
    if args == [] then [] else PairUp(args[..|args| - 2]) + [(args[|args| - 2], args[|args| - 1])]
  }

  /** Sets the pairs one after another. */
  function WithPairs(m: Store, pairs: seq<(string, string)>): Store {
    if pairs == [] then m
    else WithPairs(m, pairs[..|pairs| - 1])[pairs[|pairs| - 1].0 := Entry(pairs[|pairs| - 1].1, None)]
  }

  /** `steady_clock` counts nanoseconds. */
  const SECOND := 1_000_000_000

  /** EXPIRE key seconds. */
  function DeadlineSet(m: Store, k: string, seconds: int, now: int): Store
    requires k in m
  {
    m[k := WithDeadline(m[k], now + SECOND * seconds)]
  }

  /** What a command does to the store at time `now`. */
  function Effect(m: Store, t: CommandType, args: seq<string>, now: int): Store {
    match t
    case SetType => if |args| >= 2 then m[args[0] := Entry(Join(args[1..]), None)] else m
    case MsetType => if |args| >= 2 && |args| % 2 == 0 then WithPairs(m, PairUp(args)) else m
    case DeleteType => if |args| == 1 then m - {args[0]} else m
    case FlushdbType => map[]
    case IncrType => if |args| == 1 then C.IncrementAt(m, args[0], 1, now).0 else m
    case DecrType => if |args| == 1 then C.IncrementAt(m, args[0], -1, now).0 else m
    case IncrbyType =>
      if |args| == 2 && Stoll(args[1]).Number? then C.IncrementAt(m, args[0], Stoll(args[1]).value, now).0 else m
    case ExpireType =>
      if |args| == 2 && Stoll(args[1]).Number? && args[0] in m
      then DeadlineSet(m, args[0], Stoll(args[1]).value, now) else m
    case ReadOnly => m
  }

  function LineEffect(m: Store, line: string, now: int): Store {
    match CommandOf(line)
    case None => m
    case Some(c) => Effect(m, TypeOf(c.name), c.args, now)
  }

  /** A line and when it is carried out, or the keys a background sweep takes out. */
  datatype Input = Line(text: string, at: int) | Swept(removed: set<string>)

  /** What a server that starts empty holds after its inputs. */
  function Typed(inputs: seq<Input>): Store {
    if inputs == [] then map[]
    else
      var m := Typed(inputs[..|inputs| - 1]);
      match inputs[|inputs| - 1]
      case Line(text, at) => LineEffect(m, text, at)
      case Swept(removed) => m - removed
  }

  // ----- Lines as they are typed -----

  ghost predicate AllTokens(ts: seq<string>) {
    forall i {:trigger ts[i]} :: 0 <= i < |ts| ==> IsToken(ts[i])
  }

  lemma TokensAndMore(ts: seq<string>, more: seq<string>)
    requires AllTokens(ts) && AllTokens(more)
    ensures AllTokens(ts + more)
  {
  }

  lemma TypedCommand(ts: seq<string>)
    requires ts != [] && AllTokens(ts)
    ensures CommandOf(Join(ts)) == Some(Command(ts[0], ts[1..]))
  {
    TokensOfJoin(ts);
  }

  lemma TypedLine(m: Store, name: string, t: CommandType, args: seq<string>, now: int)
    requires IsToken(name) && TypeOf(name) == t && AllTokens(args)
    ensures LineEffect(m, Join([name] + args), now) == Effect(m, t, args, now)
  {
    TokensAndMore([name], args);
    TypedCommand([name] + args);
    assert ([name] + args)[1..] == args;
  }

  lemma SetEffect(m: Store, k: string, words: seq<string>, now: int)
    requires words != []
    ensures Effect(m, SetType, [k] + words, now) == m[k := Entry(Join(words), None)]
  {
    assert ([k] + words)[1..] == words;
  }

  /** SET: the key, then the words of the value with single spaces between them. */
  lemma TypedSet(m: Store, name: string, k: string, words: seq<string>, now: int)
    requires TypeOf(name) == SetType && IsToken(name) && IsToken(k) && words != []
    requires AllTokens(words)
    ensures LineEffect(m, Join([name, k] + words), now) == m[k := Entry(Join(words), None)]
  {
    TokensAndMore([k], words);
    TypedLine(m, name, SetType, [k] + words, now);
    FirstAndRest(name, k, words);
    SetEffect(m, k, words, now);
  }

  lemma FirstAndRest(a: string, b: string, rest: seq<string>)
    ensures [a, b] + rest == [a] + ([b] + rest)
  {
  }

  lemma TypedDelete(m: Store, name: string, k: string, now: int)
    requires TypeOf(name) == DeleteType && IsToken(name) && IsToken(k)
    ensures LineEffect(m, Join([name, k]), now) == m - {k}
  {
    TypedLine(m, name, DeleteType, [k], now);
    assert [name] + [k] == [name, k];
  }

  /** The words of MSET's arguments. */
  function PairWords(pairs: seq<(string, string)>): seq<string> {
    if pairs == [] then [] else PairWords(pairs[..|pairs| - 1]) + [pairs[|pairs| - 1].0, pairs[|pairs| - 1].1]
  }

  /** The arguments are taken two by two in order, each key before its value. */
  lemma {:induction false} PairUpIs(args: seq<string>)
    requires |args| % 2 == 0
    ensures |PairUp(args)| == |args| / 2
    ensures forall i :: 0 <= i < |args| / 2 ==> PairUp(args)[i] == (args[2 * i], args[2 * i + 1])
  {
    if args != [] {
      var before, n := args[..|args| - 2], |args| / 2 - 1;
      assert |before| == 2 * n && |args| == 2 * n + 2;
      PairUpIs(before);
    }
  }

  lemma {:induction false} PairUpWords(pairs: seq<(string, string)>)
    ensures |PairWords(pairs)| == 2 * |pairs| && |PairWords(pairs)| % 2 == 0 && PairUp(PairWords(pairs)) == pairs
  {
    if pairs != [] {
      var before, words := PairWords(pairs[..|pairs| - 1]), PairWords(pairs);
      PairUpWords(pairs[..|pairs| - 1]);
      assert words[..|words| - 2] == before;
    }
  }

  lemma {:induction false} PairWordsAreTokens(pairs: seq<(string, string)>)
    requires forall i :: 0 <= i < |pairs| ==> IsToken(pairs[i].0) && IsToken(pairs[i].1)
    ensures AllTokens(PairWords(pairs))
  {
    if pairs != [] {
      PairWordsAreTokens(pairs[..|pairs| - 1]);
    }
  }

  lemma TypedMset(m: Store, name: string, pairs: seq<(string, string)>, now: int)
    requires TypeOf(name) == MsetType && IsToken(name) && pairs != []
    requires forall i :: 0 <= i < |pairs| ==> IsToken(pairs[i].0) && IsToken(pairs[i].1)
    ensures LineEffect(m, Join([name] + PairWords(pairs)), now) == WithPairs(m, pairs)
  {
    var words := PairWords(pairs);
    PairUpWords(pairs);
    PairWordsAreTokens(pairs);
    TypedLine(m, name, MsetType, words, now);
  }

  /** The last pair with a key decides its value. */
  lemma {:induction false} LastPairWins(m: Store, pairs: seq<(string, string)>, i: nat)
    requires i < |pairs| && forall j :: i < j < |pairs| ==> pairs[j].0 != pairs[i].0
    ensures pairs[i].0 in WithPairs(m, pairs) && WithPairs(m, pairs)[pairs[i].0] == Entry(pairs[i].1, None)
  {
    if i < |pairs| - 1 {
      LastPairWins(m, pairs[..|pairs| - 1], i);
    }
  }

  lemma {:induction false} UnpairedStays(m: Store, pairs: seq<(string, string)>, k: string)
    requires forall i :: 0 <= i < |pairs| ==> pairs[i].0 != k
    ensures AgreeAt(WithPairs(m, pairs), m, k)
  {
    if pairs != [] {
      UnpairedStays(m, pairs[..|pairs| - 1], k);
    }
  }

  lemma StepEffect(m: Store, k: string, now: int)
    requires k !in m
    ensures Effect(m, IncrType, [k], now) == m[k := Entry("1", None)]
    ensures Effect(m, DecrType, [k], now) == m[k := Entry("-1", None)]
  {
    assert PrintInt(1) == "1" && PrintInt(-1) == "-1";
  }

  /** INCR and DECR of a key without a value. */
  lemma TypedStep(m: Store, name: string, t: CommandType, k: string, now: int)
    requires IsToken(name) && IsToken(k) && k !in m && TypeOf(name) == t && (t == IncrType || t == DecrType)
    ensures LineEffect(m, Join([name, k]), now) == m[k := Entry(if t == IncrType then "1" else "-1", None)]
  {
    TypedLine(m, name, t, [k], now);
    assert [name] + [k] == [name, k];
    StepEffect(m, k, now);
  }

  lemma TypedNumber(m: Store, name: string, t: CommandType, k: string, n: int, now: int)
    requires IsToken(name) && TypeOf(name) == t && IsToken(k) && -I64 <= n < I64
    ensures LineEffect(m, Join([name, k, PrintInt(n)]), now) == Effect(m, t, [k, PrintInt(n)], now)
    ensures Stoll(PrintInt(n)) == Number(n)
  {
    PrintIntIsToken(n);
    StollPrint(n);
    TypedLine(m, name, t, [k, PrintInt(n)], now);
    assert [name] + [k, PrintInt(n)] == [name, k, PrintInt(n)];
  }

  lemma TypedIncrby(m: Store, name: string, k: string, delta: int, now: int)
    requires TypeOf(name) == IncrbyType && IsToken(name) && IsToken(k) && k !in m && -I64 <= delta < I64
    ensures LineEffect(m, Join([name, k, PrintInt(delta)]), now) == m[k := Entry(PrintInt(delta), None)]
  {
    TypedNumber(m, name, IncrbyType, k, delta, now);
    IncrbyEffect(m, k, PrintInt(delta), delta, now);
  }

  lemma TypedExpire(m: Store, name: string, k: string, seconds: int, now: int)
    requires TypeOf(name) == ExpireType && IsToken(name) && IsToken(k) && k in m && -I64 <= seconds < I64
    ensures LineEffect(m, Join([name, k, PrintInt(seconds)]), now) ==
            m[k := Entry(m[k].value, Some(now + 1_000_000_000 * seconds))]
  {
    TypedNumber(m, name, ExpireType, k, seconds, now);
    ExpireEffect(m, k, PrintInt(seconds), seconds, now);
  }

  lemma IncrbyEffect(m: Store, k: string, text: string, delta: int, now: int)
    requires k !in m && Stoll(text) == Number(delta)
    ensures Effect(m, IncrbyType, [k, text], now) == m[k := Entry(PrintInt(delta), None)]
  {
  }

  lemma ExpireEffect(m: Store, k: string, text: string, seconds: int, now: int)
    requires k in m && Stoll(text) == Number(seconds)
    ensures Effect(m, ExpireType, [k, text], now) == m[k := Entry(m[k].value, Some(now + 1_000_000_000 * seconds))]
  {
  }

  /** The names in both letter cases. */
  lemma SetNames()
    ensures TypeOf("SET") == TypeOf("set") == SetType && TypeOf("MSET") == TypeOf("mset") == MsetType
  {
    assert Upper("set") == "SET" && Upper("mset") == "MSET";
    assert Upper("SET") == "SET" && Upper("MSET") == "MSET";
  }

  lemma DeleteNames()
    ensures TypeOf("DEL") == TypeOf("del") == TypeOf("DELETE") == TypeOf("delete") == DeleteType
  {
    assert Upper("DEL") == "DEL" && Upper("del") == "DEL";
    assert Upper("DELETE") == "DELETE" && Upper("delete") == "DELETE";
  }

  lemma CounterNames()
    ensures TypeOf("INCR") == TypeOf("incr") == IncrType && TypeOf("DECR") == TypeOf("decr") == DecrType
    ensures TypeOf("INCRBY") == TypeOf("incrby") == IncrbyType
  {
    assert Upper("INCR") == "INCR" && Upper("DECR") == "DECR" && Upper("INCRBY") == "INCRBY";
    assert Upper("incr") == "INCR" && Upper("decr") == "DECR" && Upper("incrby") == "INCRBY";
  }

  lemma OtherNames()
    ensures TypeOf("FLUSHDB") == TypeOf("flushdb") == FlushdbType && TypeOf("EXPIRE") == TypeOf("expire") == ExpireType
    ensures TypeOf("GET") == TypeOf("SCAN") == ReadOnly
  {
    assert Upper("FLUSHDB") == "FLUSHDB" && Upper("EXPIRE") == "EXPIRE";
    assert Upper("flushdb") == "FLUSHDB" && Upper("expire") == "EXPIRE";
    assert Upper("GET") == "GET" && Upper("SCAN") == "SCAN";
  }

  lemma PrintIntIsToken(n: int)
    ensures IsToken(PrintInt(n)) && NoNewline(PrintInt(n))
  {
    var m := if n < 0 then -n else n;
    assert forall i :: 0 <= i < |Print(m)| ==> IsDigit(Print(m)[i]);
    assert forall i :: 0 <= i < |PrintInt(n)| ==> IsDigit(PrintInt(n)[i]) || PrintInt(n)[i] == '-';
  }

  // ----- The handlers -----

  method HandleSet(storage: StorageEngine, args: seq<string>) returns (reply: string)
    requires storage.Valid()
    modifies storage, storage.table.Repr
    ensures storage.Valid() && fresh(storage.table.Repr - old(storage.table.Repr))
    ensures |args| < 2 ==> reply == Err("wrong number of arguments for SET") && storage.store == old(storage.store)
    ensures |args| >= 2 ==>
              reply == "+OK" && storage.store == old(storage.store)[args[0] := Entry(Join(args[1..]), None)]
  {
    if |args| < 2 {
      return Err("wrong number of arguments for SET");
    }
    var value := args[1];
    assert args[1..2] == [args[1]];
    for i := 2 to |args|
      invariant value == Join(args[1..i])
    {
      assert args[1..i + 1][..i - 1] == args[1..i];
      value := value + [' '] + args[i];
    }
    assert args[1..|args|] == args[1..];
    var _ := storage.Set(args[0], value);
    return "+OK";
  }

  method HandleMset(storage: StorageEngine, args: seq<string>) returns (reply: string)
    requires storage.Valid()
    modifies storage, storage.table.Repr
    ensures storage.Valid() && fresh(storage.table.Repr - old(storage.table.Repr))
    ensures |args| < 2 || |args| % 2 != 0 ==>
              reply == Err("wrong number of arguments for MSET") && storage.store == old(storage.store)
    ensures |args| >= 2 && |args| % 2 == 0 ==>
              reply == "+OK" && storage.store == WithPairs(old(storage.store), PairUp(args))
  {
    if |args| < 2 || |args| % 2 != 0 {
      return Err("wrong number of arguments for MSET");
    }
    var pairs := CollectPairs(args);
    var _ := Mset(storage, pairs);
    return "+OK";
  }

  method CollectPairs(args: seq<string>) returns (pairs: seq<(string, string)>)
    requires |args| % 2 == 0
    ensures pairs == PairUp(args)
  {
    pairs := [];
    var i := 0;
    while i + 1 < |args|
      invariant 0 <= i <= |args| && i % 2 == 0 && pairs == PairUp(args[..i])
    {
      assert args[..i + 2][..i] == args[..i];
      pairs := pairs + [(args[i], args[i + 1])];
      i := i + 2;
    }
    assert args[..i] == args;
  }

  /** `BatchOperations::mset` */
  method Mset(storage: StorageEngine, pairs: seq<(string, string)>) returns (written: nat)
    requires storage.Valid()
    modifies storage, storage.table.Repr
    ensures storage.Valid() && fresh(storage.table.Repr - old(storage.table.Repr))
    ensures written == |pairs| && storage.store == WithPairs(old(storage.store), pairs)
  {
    written := 0;
    for i := 0 to |pairs|
      invariant storage.Valid() && fresh(storage.table.Repr - old(storage.table.Repr)) && written == i
      invariant storage.store == WithPairs(old(storage.store), pairs[..i])
    {
      assert pairs[..i + 1][..i] == pairs[..i];
      var ok := storage.Set(pairs[i].0, pairs[i].1);
      if ok {
        written := written + 1;
      }
    }
    assert pairs[..|pairs|] == pairs;
  }

  method HandleDelete(storage: StorageEngine, args: seq<string>) returns (reply: string)
    requires storage.Valid()
    modifies storage, storage.table.Repr
    ensures storage.Valid() && storage.table.Repr == old(storage.table.Repr)
    ensures |args| != 1 ==> reply == Err("wrong number of arguments for DELETE") && storage.store == old(storage.store)
    ensures |args| == 1 ==>
              && reply == Flag(args[0] in old(storage.store))
              && storage.store == old(storage.store) - {args[0]}
  {
    if |args| != 1 {
      return Err("wrong number of arguments for DELETE");
    }
    var removed := storage.Remove(args[0]);
    IntegerFlag(removed);
    return Integer(if removed then 1 else 0);
  }

  /** None when `std::stoll` throws. */
  method HandleExpire(storage: StorageEngine, args: seq<string>) returns (reply: Option<string>)
    requires storage.Valid()
    modifies storage, storage.clock, storage.table.Repr
    ensures storage.Valid() && fresh(storage.table.Repr - old(storage.table.Repr))
    ensures storage.clock.now >= old(storage.clock.now)
    ensures |args| != 2 ==> reply == Some(Err("wrong number of arguments for EXPIRE"))
    ensures |args| == 2 && !Stoll(args[1]).Number? ==> reply == None
    ensures !(|args| == 2 && Stoll(args[1]).Number?) ==> storage.store == old(storage.store)
    ensures |args| == 2 && Stoll(args[1]).Number? ==>
              && reply == Some(Flag(args[0] in old(storage.store)))
              && storage.store == if args[0] !in old(storage.store) then old(storage.store)
                                  else DeadlineSet(old(storage.store), args[0], Stoll(args[1]).value, storage.clock.now)
  {
    if |args| != 2 {
      return Some(Err("wrong number of arguments for EXPIRE"));
    }
    if !Stoll(args[1]).Number? {
      return None;
    }
    var text := ExpireIn(storage, args[0], Stoll(args[1]).value);
    return Some(text);
  }

  method ExpireIn(storage: StorageEngine, key: string, seconds: int) returns (reply: string)
    requires storage.Valid()
    modifies storage, storage.clock, storage.table.Repr
    ensures storage.Valid() && fresh(storage.table.Repr - old(storage.table.Repr))
    ensures storage.clock.now >= old(storage.clock.now)
    ensures reply == Flag(key in old(storage.store))
    ensures storage.store ==
            if key in old(storage.store) then DeadlineSet(old(storage.store), key, seconds, storage.clock.now)
            else old(storage.store)
  {
    var ok := storage.SetTtl(key, SECOND * seconds);
    IntegerFlag(ok);
    return Integer(if ok then 1 else 0);
  }

  function Flag(b: bool): string {
    if b then ":1" else ":0"
  }

  lemma IntegerFlag(b: bool)
    ensures Integer(if b then 1 else 0) == Flag(b)
  {
    assert Print(0) == "0" && Print(1) == "1";
  }

  function CounterName(t: CommandType): string {
    if t == IncrType then "INCR" else if t == DecrType then "DECR" else "INCRBY"
  }

  /** By how much a counter command counts. */
  function DeltaOf(c: Command): Parsed
    requires |c.args| == if TypeOf(c.name) == IncrbyType then 2 else 1
  {
    match TypeOf(c.name)
    case IncrbyType => Stoll(c.args[1])
    case DecrType => Number(-1)
    case _ => Number(1)
  }

  /** `handle_incr`, `handle_decr` and `handle_incrby`; None when a number does not parse or the sum overflows. */
  method HandleCounter(counters: C.CounterStore, c: Command) returns (reply: Option<string>)
    requires counters.storage.Valid() && TypeOf(c.name) in {IncrType, DecrType, IncrbyType}
    modifies counters.storage, counters.storage.clock, counters.storage.table.Repr
    ensures counters.storage.Valid() && fresh(counters.storage.table.Repr - old(counters.storage.table.Repr))
    ensures counters.storage.clock.now >= old(counters.storage.clock.now)
    ensures counters.storage.store ==
            Effect(old(counters.storage.store), TypeOf(c.name), c.args, counters.storage.clock.now)
    ensures |c.args| != (if TypeOf(c.name) == IncrbyType then 2 else 1) ==>
              reply == Some(Err("wrong number of arguments for " + CounterName(TypeOf(c.name))))
    ensures |c.args| == (if TypeOf(c.name) == IncrbyType then 2 else 1) ==>
              && (reply.Some? <==>
                    && DeltaOf(c).Number?
                    && C.IncrementAt(old(counters.storage.store), c.args[0], DeltaOf(c).value,
                                     counters.storage.clock.now).1.Sum?)
              && (reply.Some? ==>
                    var s := counters.storage.store;
                    c.args[0] in s && s[c.args[0]].expiresAt == None && reply.value == ":" + s[c.args[0]].value)
  {
    var args := c.args;
    var outcome;
    if TypeOf(c.name) == IncrbyType {
      if |args| != 2 {
        return Some(Err("wrong number of arguments for " + CounterName(IncrbyType)));
      }
      var delta := Stoll(args[1]);
      if !delta.Number? {
        return None;
      }
      outcome := counters.Increment(args[0], delta.value);
    } else {
      if |args| != 1 {
        return Some(Err("wrong number of arguments for " + CounterName(TypeOf(c.name))));
      }
      if TypeOf(c.name) == IncrType {
        outcome := counters.Increment(args[0], 1);
      } else {
        outcome := counters.Decrement(args[0], 1);
      }
    }
    return if outcome.Sum? then Some(Integer(outcome.value)) else None;
  }

  /** What `dispatch` does to the store for a line; replies are the handlers' matter. */
  method RunLine(counters: C.CounterStore, line: string)
    requires counters.storage.Valid()
    modifies counters.storage, counters.storage.clock, counters.storage.table.Repr
    ensures counters.storage.Valid() && fresh(counters.storage.table.Repr - old(counters.storage.table.Repr))
    ensures counters.storage.clock.now >= old(counters.storage.clock.now)
    ensures counters.storage.store == LineEffect(old(counters.storage.store), line, counters.storage.clock.now)
  {
    var command := ParseLine(line);
    if command.Some? {
      RunCommand(counters, command.value);
    }
  }

  method RunCommand(counters: C.CounterStore, c: Command)
    requires counters.storage.Valid()
    modifies counters.storage, counters.storage.clock, counters.storage.table.Repr
    ensures counters.storage.Valid() && fresh(counters.storage.table.Repr - old(counters.storage.table.Repr))
    ensures counters.storage.clock.now >= old(counters.storage.clock.now)
    ensures counters.storage.store ==
            Effect(old(counters.storage.store), TypeOf(c.name), c.args, counters.storage.clock.now)
  {
    if TypeOf(c.name) in {IncrType, DecrType, IncrbyType} {
      var _ := HandleCounter(counters, c);
    } else {
      RunPlain(counters.storage, TypeOf(c.name), c.args);
    }
  }

  method RunPlain(storage: StorageEngine, t: CommandType, args: seq<string>)
    requires storage.Valid() && t !in {IncrType, DecrType, IncrbyType}
    modifies storage, storage.clock, storage.table.Repr
    ensures storage.Valid() && fresh(storage.table.Repr - old(storage.table.Repr))
    ensures storage.clock.now >= old(storage.clock.now)
    ensures storage.store == Effect(old(storage.store), t, args, storage.clock.now)
  {
    match t
    case SetType => var _ := HandleSet(storage, args);
    case MsetType => var _ := HandleMset(storage, args);
    case DeleteType => var _ := HandleDelete(storage, args);
    case FlushdbType => storage.ClearAll();
    case ExpireType => var _ := HandleExpire(storage, args);
    case ReadOnly =>
  }

  /** Clock readings in order, none before `start` or after `end`. */
  predicate Ascending(times: seq<int>, start: int, end: int) {
    && (forall i :: 0 <= i < |times| ==> start <= times[i] <= end)
    && (forall i, j :: 0 <= i < j < |times| ==> times[i] <= times[j])
  }

  lemma AscendingSnoc(times: seq<int>, start: int, now: int)
    requires exists end :: end <= now && Ascending(times, start, end)
    requires start <= now
    ensures Ascending(times + [now], start, now)
  {
  }

  /** `BatchOperations::mget`: the answers, and the time of each. */
  method Mget(storage: StorageEngine, keys: seq<string>) returns (values: seq<Option<string>>, ghost times: seq<int>)
    requires storage.Valid()
    modifies storage.clock
    ensures |values| == |times| == |keys|
    ensures forall i :: 0 <= i < |keys| ==> values[i] == GetAt(storage.store, keys[i], times[i])
    ensures Ascending(times, old(storage.clock.now), storage.clock.now)
  {
    values, times := [], [];
    ghost var m := storage.store;
    for i := 0 to |keys|
      invariant storage.Valid() && storage.store == m
      invariant |values| == |times| == i
      invariant forall j :: 0 <= j < i ==> values[j] == GetAt(m, keys[j], times[j])
      invariant storage.clock.now >= old(storage.clock.now)
      invariant Ascending(times, old(storage.clock.now), storage.clock.now)
    {
      var value := storage.Get(keys[i]);
      ghost var at := storage.clock.now;
      AscendingSnoc(times, old(storage.clock.now), at);
      values, times := values + [value], times + [at];
    }
  }

  /** `handle_mget`: a decoder consumes the reply whole and gets exactly the answers. */
  method HandleMget(storage: StorageEngine, args: seq<string>)
    returns (reply: string, ghost values: seq<Option<string>>, ghost times: seq<int>)
    requires storage.Valid()
    modifies storage.clock
    ensures |values| == |times| == |args|
    ensures forall i :: 0 <= i < |args| ==> values[i] == GetAt(storage.store, args[i], times[i])
    ensures Ascending(times, old(storage.clock.now), storage.clock.now)
    ensures args == [] ==> reply == Err("wrong number of arguments for MGET")
    ensures args != [] ==> Decode(reply + "") == Got(Array(AsReplies(values)), "")
  {
    if args == [] {
      return Err("wrong number of arguments for MGET"), [], [];
    }
    var got;
    got, times := Mget(storage, args);
    reply := MgetReply(got);
    values := got;
    MgetReplyDecodes(values);
  }

  lemma MgetReplyDecodes(values: seq<Option<string>>)
    ensures Decode(ArrayHead(|values|) + Elements(values) + "") == Got(Array(AsReplies(values)), "")
  {
    ElementsEncode(values);
    EncodedPartReads(ArrayHead(|values|) + Elements(values), Array(AsReplies(values)), "");
  }

  lemma NextPart(parts: seq<string>, i: nat)
    requires i < |parts|
    ensures Concat(parts[..i + 1]) == Concat(parts[..i]) + parts[i]
  {
    assert parts[..i + 1][..i] == parts[..i];
  }

  method MgetReply(values: seq<Option<string>>) returns (reply: string)
    ensures reply == ArrayHead(|values|) + Elements(values)
  {
    var body := "";
    ghost var parts := Parts(values);
    for i := 0 to |values|
      invariant body == Concat(parts[..i])
    {
      NextPart(parts, i);
      if values[i] == None {
        body := body + (NullBulk() + CRLF);
      } else {
        body := body + (Bulk(values[i].value) + CRLF);
      }
    }
    assert parts[..|values|] == parts;
    reply := "*" + Print(|values|) + CRLF + body;
  }

  // ----- What command lines can store -----

  /** Keys are tokens and values single lines. */
  ghost predicate TokenStore(m: Store) {
    forall k :: k in m ==> IsToken(k) && NoNewline(m[k].value)
  }

  lemma TokenIsClean(w: string)
    requires IsToken(w)
    ensures ' ' !in w && NoNewline(w)
  {
    assert forall i :: 0 <= i < |w| ==> !IsSpace(w[i]);
  }

  lemma {:induction false} JoinIsOneLine(ts: seq<string>)
    requires forall i :: 0 <= i < |ts| ==> IsToken(ts[i])
    ensures NoNewline(Join(ts))
  {
    if ts != [] {
      TokenIsClean(ts[|ts| - 1]);
      JoinIsOneLine(ts[..|ts| - 1]);
    }
  }

  lemma {:induction false} PairsGood(m: Store, pairs: seq<(string, string)>)
    requires TokenStore(m) && forall i :: 0 <= i < |pairs| ==> IsToken(pairs[i].0) && IsToken(pairs[i].1)
    ensures TokenStore(WithPairs(m, pairs))
  {
    if pairs != [] {
      PairsGood(m, pairs[..|pairs| - 1]);
      TokenIsClean(pairs[|pairs| - 1].1);
    }
  }

  lemma CounterGood(m: Store, k: string, delta: int, now: int)
    requires TokenStore(m) && IsToken(k)
    ensures TokenStore(C.IncrementAt(m, k, delta, now).0)
  {
    var v := C.ValueOf(GetAt(m, k, now));
    if v.Number? {
      PrintIntIsToken(v.value + delta);
    }
  }

  lemma EffectGood(m: Store, t: CommandType, args: seq<string>, now: int)
    requires TokenStore(m) && forall i :: 0 <= i < |args| ==> IsToken(args[i])
    ensures TokenStore(Effect(m, t, args, now))
  {
    match t
    case SetType => if |args| >= 2 { JoinIsOneLine(args[1..]); }
    case MsetType =>
      if |args| >= 2 && |args| % 2 == 0 {
        PairUpIs(args);
        PairsGood(m, PairUp(args));
      }
    case IncrType => if |args| == 1 { CounterGood(m, args[0], 1, now); }
    case DecrType => if |args| == 1 { CounterGood(m, args[0], -1, now); }
    case IncrbyType => if |args| == 2 && Stoll(args[1]).Number? { CounterGood(m, args[0], Stoll(args[1]).value, now); }
    case _ =>
  }

  lemma {:induction false} TypedGood(inputs: seq<Input>)
    ensures TokenStore(Typed(inputs))
  {
    if inputs != [] {
      var last := inputs[|inputs| - 1];
      TypedGood(inputs[..|inputs| - 1]);
      if last.Line? && CommandOf(last.text).Some? {
        var c := CommandOf(last.text).value;
        assert forall i :: 0 <= i < |c.args| ==> c.args[i] == Tokens(last.text)[i + 1];
        EffectGood(Typed(inputs[..|inputs| - 1]), TypeOf(c.name), c.args, last.at);
      }
    }
  }

  /**
   * Whatever lines are typed and whatever sweeps take out, a table that holds the resulting store keeps
   * its exact key-to-value map through snapshot and load, and through log compaction and replay.
   */
  lemma TypedStoreSurvives(h: Hash, t: Table, inputs: seq<Input>)
    requires WellFormed(h, t) && Contents(t) == Typed(inputs) && |Contents(t)| < U64
    ensures Loaded(map[], SnapshotText(Dump(t))) == Some(Values(Typed(inputs)))
    ensures Replayed(RewriteText(Dump(t))) == Values(Typed(inputs))
  {
    TypedGood(inputs);
    forall k | k in Contents(t) ensures Clean(k, Contents(t)[k].value) {
      TokenIsClean(k);
    }
    StoreSnapshotIff(h, t);
    StoreRewriteIff(h, t);
  }

  /** The inputs are the lines, in order, at times that do not go back. */
  ghost predicate InTurn(inputs: seq<Input>, lines: seq<string>, end: int) {
    && |inputs| == |lines|
    && (forall i :: 0 <= i < |inputs| ==> inputs[i].Line? && inputs[i].text == lines[i] && inputs[i].at <= end)
    && (forall i, j :: 0 <= i < j < |inputs| ==> inputs[i].at <= inputs[j].at)
  }

  lemma InTurnSnoc(inputs: seq<Input>, lines: seq<string>, end: int, line: string, at: int)
    requires InTurn(inputs, lines, end) && end <= at
    ensures InTurn(inputs + [Line(line, at)], lines + [line], at)
  {
  }

  method TypeOne(counters: C.CounterStore, line: string, ghost inputs: seq<Input>, ghost lines: seq<string>)
    returns (ghost next: seq<Input>)
    requires counters.storage.Valid() && counters.storage.store == Typed(inputs)
    requires InTurn(inputs, lines, counters.storage.clock.now)
    modifies counters.storage, counters.storage.clock, counters.storage.table.Repr
    ensures counters.storage.Valid() && fresh(counters.storage.table.Repr - old(counters.storage.table.Repr))
    ensures counters.storage.store == Typed(next) && InTurn(next, lines + [line], counters.storage.clock.now)
  {
    ghost var before := counters.storage.clock.now;
    RunLine(counters, line);
    ghost var now := counters.storage.clock.now;
    next := inputs + [Line(line, now)];
    InTurnSnoc(inputs, lines, before, line, now);
    TypedSnoc(inputs, line, now);
  }

  lemma TypedSnoc(inputs: seq<Input>, line: string, at: int)
    ensures Typed(inputs + [Line(line, at)]) == LineEffect(Typed(inputs), line, at)
  {
    var next := inputs + [Line(line, at)];
    assert next[..|next| - 1] == inputs;
  }

  lemma NextPrefix(lines: seq<string>, i: nat)
    requires i < |lines|
    ensures lines[..i + 1] == lines[..i] + [lines[i]]
  {
  }

  method TypeLines(counters: C.CounterStore, lines: seq<string>) returns (ghost inputs: seq<Input>)
    requires counters.storage.Valid() && counters.storage.store == map[]
    modifies counters.storage, counters.storage.clock, counters.storage.table.Repr
    ensures counters.storage.Valid() && fresh(counters.storage.table.Repr - old(counters.storage.table.Repr))
    ensures InTurn(inputs, lines, counters.storage.clock.now) && counters.storage.store == Typed(inputs)
  {
    inputs := [];
    for i := 0 to |lines|
      invariant counters.storage.Valid() && fresh(counters.storage.table.Repr - old(counters.storage.table.Repr))
      invariant InTurn(inputs, lines[..i], counters.storage.clock.now)
      invariant counters.storage.store == Typed(inputs)
    {
      inputs := TypeOne(counters, lines[i], inputs, lines[..i]);
      NextPrefix(lines, i);
    }
    assert lines[..|lines|] == lines;
  }

  /** A new server that is sent the lines one after another. */
  method TypeAll(hash: Hash, lines: seq<string>) returns (engine: StorageEngine, ghost inputs: seq<Input>)
    ensures engine.Valid() && fresh(engine) && fresh(engine.table.Repr)
    ensures InTurn(inputs, lines, engine.clock.now) && engine.store == Typed(inputs)
  {
    var clock := new Clock();
    engine := new StorageEngine(hash, clock);
    var counters := new C.CounterStore(engine);
    inputs := TypeLines(counters, lines);
  }

  /** A session on a new engine, then its snapshot loaded by another one: both hold what was typed. */
  method TypeThenRestart(hash: Hash, lines: seq<string>)
    returns (first: StorageEngine, second: StorageEngine, ghost inputs: seq<Input>)
    ensures first.Valid() && InTurn(inputs, lines, first.clock.now) && first.store == Typed(inputs)
    ensures second.Valid() && (|first.store| < U64 ==> Values(second.store) == Values(Typed(inputs)))
  {
    first, inputs := TypeAll(hash, lines);
    if |first.store| < U64 {
      TypedStoreSurvives(first.table.hash, first.table.chains, inputs);
    }
    second := SnapshotRestart(hash, first);
  }

  method SnapshotRestart(hash: Hash, engine: StorageEngine) returns (other: StorageEngine)
    requires engine.Valid()
    ensures other.Valid() && fresh(other) && fresh(other.table.Repr)
    ensures Loaded(map[], SnapshotText(Dump(engine.table.chains))).Some? ==>
              Values(other.store) == Loaded(map[], SnapshotText(Dump(engine.table.chains))).value
  {
    var text := Write(engine);
    var clock := new Clock();
    other := new StorageEngine(hash, clock);
    assert Values(other.store) == map[];
    var _ := LoadInto(other, text);
  }
}
