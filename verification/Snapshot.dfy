/** Snapshot files: a header, a count, then a line for each key and each value. */
module Snapshot {
  import opened Entries
  import opened Text
  import opened TextLines
  import opened Buckets
  import opened Ttl
  import opened Engine
  import opened AofLogs

  const HEADER := "VOLTDBX_SNAPSHOT_V1"

  function PairLines(pairs: seq<(string, string)>): seq<string> {
    if pairs == [] then [] else PairLines(pairs[..|pairs| - 1]) + [pairs[|pairs| - 1].0, pairs[|pairs| - 1].1]
  }

  /** The text `SnapshotWriter::write` leaves. */
  function SnapshotText(pairs: seq<(string, string)>): string {
    Unlines([HEADER, Print(|pairs|)] + PairLines(pairs))
  }

  /** `count_stream >> count`: zero when nothing can be read, the largest word when it overflows. */
  function ReadCount(line: string): nat {
    match Stoull(line)
    case Number(v) => v
    case InvalidArgument => 0
    case OutOfRange => U64 - 1
  }

  /** Up to `count` pairs of lines, stopping early at the end of the file. */
  function LoadPairs(m: map<string, string>, lines: seq<string>, count: nat): map<string, string>
    decreases count
  {
    if count == 0 || |lines| < 2 then m else LoadPairs(m[lines[0] := lines[1]], lines[2..], count - 1)
  }

  /** What `load_into` makes of a file and a store, or None when it refuses the header. */
  function Loaded(m: map<string, string>, text: string): Option<map<string, string>> {
    var lines := Lines(text);
    if lines == [] || lines[0] != HEADER then None
    else if |lines| == 1 then Some(m)
    else Some(LoadPairs(m, lines[2..], ReadCount(lines[1])))
  }

  /** Neither key nor value spans lines. */
  ghost predicate OneLiners(pairs: seq<(string, string)>) {
    forall i :: 0 <= i < |pairs| ==> NoNewline(pairs[i].0) && NoNewline(pairs[i].1)
  }

  /** Each pair takes two lines: its key, then its value. */
  lemma {:induction false} PairLinesAre(pairs: seq<(string, string)>)
    ensures |PairLines(pairs)| == 2 * |pairs|
    ensures forall i :: 0 <= i < |pairs| ==>
              PairLines(pairs)[2 * i] == pairs[i].0 && PairLines(pairs)[2 * i + 1] == pairs[i].1
  {
    if pairs != [] {
      PairLinesAre(pairs[..|pairs| - 1]);
    }
  }

  lemma PairLinesOneLine(pairs: seq<(string, string)>)
    requires OneLiners(pairs)
    ensures AllOneLine(PairLines(pairs))
  {
    PairLinesAre(pairs);
    forall i | 0 <= i < |PairLines(pairs)| ensures NoNewline(PairLines(pairs)[i]) {
      assert i == 2 * (i / 2) || i == 2 * (i / 2) + 1;
    }
  }

  lemma {:induction false} PairLinesFront(pairs: seq<(string, string)>)
    requires pairs != []
    ensures PairLines(pairs) == [pairs[0].0, pairs[0].1] + PairLines(pairs[1..])
  {
    var n := |pairs| - 1;
    if n == 0 {
      assert pairs[..0] == [];
    } else {
      PairLinesFront(pairs[..n]);
      assert pairs[..n][1..] == pairs[1..][..n - 1];
    }
  }

  lemma LoadFirst(m: map<string, string>, pairs: seq<(string, string)>, rest: seq<string>, count: nat)
    requires pairs != [] && count > 0
    ensures LoadPairs(m, PairLines(pairs) + rest, count) ==
            LoadPairs(m[pairs[0].0 := pairs[0].1], PairLines(pairs[1..]) + rest, count - 1)
  {
    var lines := PairLines(pairs) + rest;
    PairLinesFront(pairs);
    assert lines[0] == pairs[0].0 && lines[1] == pairs[0].1 && lines[2..] == PairLines(pairs[1..]) + rest;
  }

  /** Loads the pairs that fit both the count and the file, the later ones over the earlier ones. */
  lemma {:induction false} LoadPairsIs(m: map<string, string>, pairs: seq<(string, string)>, rest: seq<string>,
                                       count: nat)
    requires count <= |pairs| || |rest| < 2
    ensures LoadPairs(m, PairLines(pairs) + rest, count) ==
            m + PairMap(if count < |pairs| then pairs[..count] else pairs)
    decreases count
  {
    PairLinesAre(pairs);
    if count == 0 || pairs == [] {
      assert m + map[] == m;
    } else {
      var (k, v) := pairs[0];
      var tail := pairs[1..];
      LoadFirst(m, pairs, rest, count);
      LoadPairsIs(m[k := v], tail, rest, count - 1);
      var first := if count < |pairs| then pairs[..count] else pairs;
      assert first[1..] == if count - 1 < |tail| then tail[..count - 1] else tail;
      PairMapAfter(m, first);
    }
  }

  lemma {:induction false} PairMapAfter(m: map<string, string>, pairs: seq<(string, string)>)
    requires pairs != []
    ensures m + PairMap(pairs) == m[pairs[0].0 := pairs[0].1] + PairMap(pairs[1..])
  {
    var n := |pairs| - 1;
    if n == 0 {
      assert pairs[..0] == [];
      assert PairMap(pairs) == map[pairs[0].0 := pairs[0].1];
    } else {
      PairMapAfter(m, pairs[..n]);
      assert pairs[..n][1..] == pairs[1..][..n - 1];
      MergeUpdate(m, PairMap(pairs[..n]), pairs[n].0, pairs[n].1);
      MergeUpdate(m[pairs[0].0 := pairs[0].1], PairMap(pairs[1..n]), pairs[n].0, pairs[n].1);
      assert pairs[1..][..n - 1] == pairs[1..n];
    }
  }

  ghost predicate AllOneLine(lines: seq<string>) {
    forall i :: 0 <= i < |lines| ==> NoNewline(lines[i])
  }

  lemma AllOneLineConcat(a: seq<string>, b: seq<string>)
    requires AllOneLine(a) && AllOneLine(b)
    ensures AllOneLine(a + b)
  {
  }

  lemma HeadIsOneLine(n: nat)
    ensures NoNewline(HEADER) && NoNewline(Print(n))
  {
    assert forall i :: 0 <= i < |Print(n)| ==> IsDigit(Print(n)[i]);
  }

  lemma FileLines(count: string, pairs: seq<(string, string)>)
    requires NoNewline(count) && OneLiners(pairs)
    ensures Lines(Unlines([HEADER, count] + PairLines(pairs))) == [HEADER, count] + PairLines(pairs)
  {
    PairLinesOneLine(pairs);
    HeadIsOneLine(0);
    AllOneLineConcat([HEADER, count], PairLines(pairs));
    LinesOfUnlines([HEADER, count] + PairLines(pairs));
  }

  lemma LoadedLines(m: map<string, string>, text: string, count: string, rest: seq<string>)
    requires Lines(text) == [HEADER, count] + rest
    ensures Loaded(m, text) == Some(LoadPairs(m, rest, ReadCount(count)))
  {
    assert Lines(text)[2..] == rest;
  }

  /** The count line: a number with anything after it, the largest word beyond 64 bits, else zero. */
  lemma CountLine(n: nat, rest: string, s: string)
    requires rest != "" ==> !IsDigit(rest[0])
    requires s == "" || !(IsSpace(s[0]) || s[0] == '-' || s[0] == '+' || IsDigit(s[0]))
    ensures ReadCount(Print(n) + rest) == if n < 0x1_0000_0000_0000_0000 then n else 0xFFFF_FFFF_FFFF_FFFF
    ensures ReadCount(s) == 0
  {
    ReadPrinted(n, rest);
    NotANumber(s);
  }

  /** A file loads as many of its pairs as its count line says, over whatever the store held. */
  lemma CountedPairsLoad(m: map<string, string>, count: string, pairs: seq<(string, string)>)
    requires NoNewline(count) && OneLiners(pairs)
    ensures var n := ReadCount(count);
            Loaded(m, Unlines(["VOLTDBX_SNAPSHOT_V1", count] + PairLines(pairs))) ==
            Some(m + PairMap(if n < |pairs| then pairs[..n] else pairs))
  {
    FileLines(count, pairs);
    LoadedLines(m, Unlines([HEADER, count] + PairLines(pairs)), count, PairLines(pairs));
    LoadPairsIs(m, pairs, [], ReadCount(count));
    assert PairLines(pairs) + [] == PairLines(pairs);
  }

  /** Loading what was written puts the pairs over whatever the store held. */
  lemma OneLinersLoad(m: map<string, string>, pairs: seq<(string, string)>)
    requires OneLiners(pairs) && |pairs| < U64
    ensures Loaded(m, SnapshotText(pairs)) == Some(m + PairMap(pairs))
  {
    HeadIsOneLine(|pairs|);
    StoullPrint(|pairs|);
    CountedPairsLoad(m, Print(|pairs|), pairs);
  }

  lemma EmptyMerge(p: map<string, string>)
    ensures map[] + p == p
  {
  }

  lemma WrittenLoads(pairs: seq<(string, string)>)
    requires OneLiners(pairs) && |pairs| < U64
    ensures Loaded(map[], SnapshotText(pairs)) == Some(PairMap(pairs))
  {
    OneLinersLoad(map[], pairs);
    EmptyMerge(PairMap(pairs));
  }

  lemma {:induction false} LoadPairsOneLine(m: map<string, string>, lines: seq<string>, count: nat, k: string)
    requires forall i :: 0 <= i < |lines| ==> NoNewline(lines[i])
    requires forall x :: x in m ==> NoNewline(x) && NoNewline(m[x])
    requires k in LoadPairs(m, lines, count)
    ensures NoNewline(k) && NoNewline(LoadPairs(m, lines, count)[k])
    decreases count
  {
    if count > 0 && |lines| >= 2 {
      LoadPairsOneLine(m[lines[0] := lines[1]], lines[2..], count - 1, k);
    }
  }

  lemma {:induction false} PairMapHas(pairs: seq<(string, string)>, i: nat)
    requires i < |pairs| && forall j :: i < j < |pairs| ==> pairs[j].0 != pairs[i].0
    ensures pairs[i].0 in PairMap(pairs) && PairMap(pairs)[pairs[i].0] == pairs[i].1
  {
    if i < |pairs| - 1 {
      PairMapHas(pairs[..|pairs| - 1], i);
    }
  }

  /**
   * For pairs with distinct keys, loading what was written restores the map exactly when no key and no
   * value contains a newline.
   */
  lemma SnapshotRoundTripIff(pairs: seq<(string, string)>)
    requires |pairs| < U64
    requires forall i, j :: 0 <= i < j < |pairs| ==> pairs[i].0 != pairs[j].0
    ensures OneLiners(pairs) <==> Loaded(map[], SnapshotText(pairs)) == Some(PairMap(pairs))
  {
    if OneLiners(pairs) {
      WrittenLoads(pairs);
    } else {
      var i :| 0 <= i < |pairs| && !(NoNewline(pairs[i].0) && NoNewline(pairs[i].1));
      PairMapHas(pairs, i);
      LoadedIsOneLine(SnapshotText(pairs), pairs[i].0);
    }
  }

  /** Nothing that is loaded spans lines. */
  lemma LoadedIsOneLine(text: string, k: string)
    ensures var loaded := Loaded(map[], text);
            loaded.Some? && k in loaded.value ==> NoNewline(k) && NoNewline(loaded.value[k])
  {
    var lines, loaded := Lines(text), Loaded(map[], text);
    LinesHaveNoNewline(text);
    if loaded.Some? && k in loaded.value {
      LoadPairsOneLine(map[], lines[2..], ReadCount(lines[1]), k);
    }
  }

  /** A store survives snapshot and load exactly when no key or value of it spans lines. */
  lemma StoreSnapshotIff(h: Hash, t: Table)
    requires WellFormed(h, t) && |Contents(t)| < U64
    ensures (forall k :: k in Contents(t) ==> NoNewline(k) && NoNewline(Contents(t)[k].value)) <==>
            Loaded(map[], SnapshotText(Dump(t))) == Some(Values(Contents(t)))
  {
    DumpHolds(h, t);
    SnapshotRoundTripIff(Dump(t));
    if OneLiners(Dump(t)) {
      forall k | k in Contents(t) ensures NoNewline(k) && NoNewline(Contents(t)[k].value) {
        var i :| 0 <= i < |Dump(t)| && Dump(t)[i] == (k, Contents(t)[k].value);
      }
    }
  }

  // ----- The operations -----

  method Write(engine: StorageEngine) returns (text: string)
    requires engine.Valid()
    ensures text == SnapshotText(Dump(engine.table.chains))
    ensures var pairs := Dump(engine.table.chains);
            text == Unlines(["VOLTDBX_SNAPSHOT_V1", Print(|pairs|)] + PairLines(pairs))
  {
    var pairs := engine.DumpEntries();
    text := HEADER + "\n" + Print(|pairs|) + "\n";
    SnapshotTextStart(|pairs|);
    ghost var lines := [HEADER, Print(|pairs|)];
    for i := 0 to |pairs|
      invariant text == Unlines(lines + PairLines(pairs[..i]))
    {
      SnapshotTextStep(lines, pairs, i);
      text := text + pairs[i].0 + "\n" + pairs[i].1 + "\n";
    }
    assert pairs[..|pairs|] == pairs;
  }

  lemma SnapshotTextStart(n: nat)
    ensures Unlines([HEADER, Print(n)] + PairLines([])) == HEADER + "\n" + Print(n) + "\n"
  {
    var lines := [HEADER, Print(n)];
    assert lines + PairLines([]) == lines && lines[..1] == [HEADER] && [HEADER][..0] == [];
    assert Unlines([HEADER]) == HEADER + "\n";
  }

  lemma SnapshotTextStep(lines: seq<string>, pairs: seq<(string, string)>, i: nat)
    requires i < |pairs|
    ensures Unlines(lines + PairLines(pairs[..i + 1])) ==
            Unlines(lines + PairLines(pairs[..i])) + pairs[i].0 + "\n" + pairs[i].1 + "\n"
  {
    assert pairs[..i + 1][..i] == pairs[..i];
    var before, k, v := lines + PairLines(pairs[..i]), pairs[i].0, pairs[i].1;
    var all := lines + PairLines(pairs[..i + 1]);
    assert all == before + [k, v] && all[..|all| - 1] == before + [k] && (before + [k])[..|before|] == before;
  }

  method LoadInto(engine: StorageEngine, text: string) returns (ok: bool)
    requires engine.Valid()
    modifies engine, engine.table.Repr
    ensures engine.Valid() && fresh(engine.table.Repr - old(engine.table.Repr))
    ensures ok == (Lines(text) != [] && Lines(text)[0] == "VOLTDBX_SNAPSHOT_V1")
    ensures ok == Loaded(Values(old(engine.store)), text).Some?
    ensures Values(engine.store) ==
            if ok then Loaded(Values(old(engine.store)), text).value else Values(old(engine.store))
  {
    var lines := Lines(text);
    if lines == [] || lines[0] != HEADER {
      return false;
    }
    if |lines| == 1 {
      return true;
    }
    LoadLines(engine, lines[2..], ReadCount(lines[1]));
    return true;
  }

  method LoadLines(engine: StorageEngine, lines: seq<string>, count: nat)
    requires engine.Valid()
    modifies engine, engine.table.Repr
    ensures engine.Valid() && fresh(engine.table.Repr - old(engine.table.Repr))
    ensures Values(engine.store) == LoadPairs(Values(old(engine.store)), lines, count)
  {
    ghost var goal := LoadPairs(Values(engine.store), lines, count);
    ghost var m := Values(engine.store);
    var rest, i := lines, 0;
    while i < count && |rest| >= 2
      invariant engine.Valid() && fresh(engine.table.Repr - old(engine.table.Repr)) && i <= count
      invariant m == Values(engine.store)
      invariant goal == LoadPairs(m, rest, count - i)
      decreases count - i
    {
      ValuesOfUpdate(engine.store, rest[0], Entry(rest[1], None));
      var _ := engine.Set(rest[0], rest[1]);
      m := m[rest[0] := rest[1]];
      rest, i := rest[2..], i + 1;
    }
  }
}
