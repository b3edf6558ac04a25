/** The append-only log: what its lines mean, how it is written, replayed and compacted. */
module AofLogs {
  import opened Entries
  import opened Text
  import opened TextLines
  import opened Buckets
  import opened Ttl
  import opened Engine

  function SetLine(k: string, v: string): string {
    "SET " + k + " " + v
  }

  function DelLine(k: string): string {
    "DEL " + k
  }

  /** One line of `replay` on the key-to-value map. */
  function ApplyLine(m: map<string, string>, line: string): map<string, string> {
    if "SET " <= line then
      var rest := line[4..];
      var i := IndexOfChar(rest, ' ');
      if i == |rest| then m else m[rest[..i] := rest[i + 1..]]
    else if "DEL " <= line then m - {line[4..]}
    else m
  }

  function ApplyLines(m: map<string, string>, lines: seq<string>): map<string, string> {
    if lines == [] then m else ApplyLine(ApplyLines(m, lines[..|lines| - 1]), lines[|lines| - 1])
  }

  /** What replaying the log into an empty engine gives. */
  function Replayed(log: string): map<string, string> {
    ApplyLines(map[], Lines(log))
  }

  const REWRITE_HEADER := "AOFREWRITE_V1"

  function RewriteLines(pairs: seq<(string, string)>): seq<string> {
    if pairs == [] then [REWRITE_HEADER]
    else RewriteLines(pairs[..|pairs| - 1]) + [SetLine(pairs[|pairs| - 1].0, pairs[|pairs| - 1].1)]
  }

  /** The text `rewrite_from` leaves. */
  function RewriteText(pairs: seq<(string, string)>): string {
    Unlines(RewriteLines(pairs))
  }

  /** The compacted file: its header line, then a SET line for each pair in order. */
  lemma {:induction false} RewriteTextIs(pairs: seq<(string, string)>)
    ensures RewriteText(pairs) ==
            "AOFREWRITE_V1\n" + Unlines(seq(|pairs|, i requires 0 <= i < |pairs| => SetLine(pairs[i].0, pairs[i].1)))
  {
    var lines := seq(|pairs|, i requires 0 <= i < |pairs| => SetLine(pairs[i].0, pairs[i].1));
    if pairs == [] {
      assert [REWRITE_HEADER][..0] == [];
      assert Unlines([]) + REWRITE_HEADER == REWRITE_HEADER;
    } else {
      var before, last := pairs[..|pairs| - 1], pairs[|pairs| - 1];
      RewriteTextIs(before);
      assert lines[..|lines| - 1] ==
             seq(|before|, i requires 0 <= i < |before| => SetLine(before[i].0, before[i].1));
      assert RewriteLines(pairs)[..|RewriteLines(pairs)| - 1] == RewriteLines(before);
    }
  }

  /** Keys without space or newline, values without newline. */
  predicate Clean(k: string, v: string) {
    ' ' !in k && NoNewline(k) && NoNewline(v)
  }

  // ----- Lines -----

  lemma ApplySetLine(m: map<string, string>, k: string, v: string)
    requires ' ' !in k
    ensures ApplyLine(m, "SET " + k + " " + v) == m[k := v]
  {
    var line := SetLine(k, v);
    assert line[4..] == k + [' '] + v;
    IndexOfCharIn(k, ' ', v);
    assert line[4..][..|k|] == k && line[4..][|k| + 1..] == v;
  }

  lemma ApplyDelLine(m: map<string, string>, k: string)
    ensures ApplyLine(m, "DEL " + k) == m - {k}
  {
    assert DelLine(k)[4..] == k && DelLine(k)[0] == 'D';
  }

  // ----- Replay over a store that is not empty -----

  /** The line sets or deletes `k`. */
  predicate Names(line: string, k: string) {
    line == "DEL " + k || (' ' !in k && "SET " + k + " " <= line)
  }

  ghost predicate AgreeAt<V(!new)>(a: map<string, V>, b: map<string, V>, k: string) {
    (k in a <==> k in b) && (k in a ==> a[k] == b[k])
  }

  lemma SplitSetLine(line: string, k: string)
    requires ' ' !in k && "SET " + k + " " <= line
    ensures line == "SET " + k + " " + line[|k| + 5..]
  {
    var head := "SET " + k + " ";
    assert line == line[..|head|] + line[|head|..];
  }

  lemma NamingLine(m: map<string, string>, line: string, k: string)
    requires Names(line, k)
    ensures ApplyLine(m, line) == if line == "DEL " + k then m - {k} else m[k := line[|k| + 5..]]
  {
    if line == "DEL " + k {
      ApplyDelLine(m, k);
    } else {
      SplitSetLine(line, k);
      ApplySetLine(m, k, line[|k| + 5..]);
    }
  }

  lemma SetLineNames(line: string)
    requires "SET " <= line && IndexOfChar(line[4..], ' ') < |line[4..]|
    ensures Names(line, line[4..][..IndexOfChar(line[4..], ' ')])
  {
    var i := IndexOfChar(line[4..], ' ');
    assert "SET " + line[4..][..i] + " " == line[..i + 5];
  }

  lemma OtherLine(m: map<string, string>, line: string, k: string)
    requires !Names(line, k)
    ensures AgreeAt(ApplyLine(m, line), m, k)
  {
    if "SET " <= line {
      if IndexOfChar(line[4..], ' ') < |line[4..]| {
        SetLineNames(line);
      }
    } else if "DEL " <= line {
      assert line == "DEL " + line[4..];
    }
  }

  /** The last line of `lines` that names `k` is the one at `i`. */
  ghost predicate LastNaming(lines: seq<string>, i: nat, k: string) {
    i < |lines| && Names(lines[i], k) && forall j :: i < j < |lines| ==> !Names(lines[j], k)
  }

  /** Whatever the store held before, the last line that names a key decides what it holds. */
  lemma {:induction false} LastLineDecides(m: map<string, string>, lines: seq<string>, i: nat, k: string)
    requires LastNaming(lines, i, k)
    ensures var r, line := ApplyLines(m, lines), lines[i];
            if line == "DEL " + k then k !in r else k in r && r[k] == line[|k| + 5..]
  {
    var n := |lines| - 1;
    var before := ApplyLines(m, lines[..n]);
    if i == n {
      NamingLine(before, lines[n], k);
    } else {
      LastLineDecides(m, lines[..n], i, k);
      OtherLine(before, lines[n], k);
    }
  }

  /** A key that no line names is left as it was. */
  lemma {:induction false} UnnamedStays(m: map<string, string>, lines: seq<string>, k: string)
    requires forall i :: 0 <= i < |lines| ==> !Names(lines[i], k)
    ensures AgreeAt(ApplyLines(m, lines), m, k)
  {
    if lines != [] {
      var n := |lines| - 1;
      UnnamedStays(m, lines[..n], k);
      OtherLine(ApplyLines(m, lines[..n]), lines[n], k);
    }
  }

  lemma {:induction false} FindLastNaming(lines: seq<string>, k: string) returns (i: nat)
    requires exists line :: line in lines && Names(line, k)
    ensures LastNaming(lines, i, k)
  {
    i := |lines| - 1;
    if !Names(lines[i], k) {
      assert lines == lines[..|lines| - 1] + [lines[|lines| - 1]];
      i := FindLastNaming(lines[..|lines| - 1], k);
    }
  }

  ghost predicate Named(lines: seq<string>, k: string) {
    exists line :: line in lines && Names(line, k)
  }

  /**
   * Replaying over any store gives what replaying over an empty one gives exactly when the lines name
   * every key the store held.
   */
  lemma ReplayOverIff(m: map<string, string>, lines: seq<string>)
    ensures (forall k :: k in m ==> Named(lines, k)) <==> ApplyLines(m, lines) == ApplyLines(map[], lines)
  {
    forall k ensures Named(lines, k) ==> AgreeAt(ApplyLines(m, lines), ApplyLines(map[], lines), k) {
      if Named(lines, k) {
        var i := FindLastNaming(lines, k);
        LastLineDecides(m, lines, i, k);
        LastLineDecides(map[], lines, i, k);
      }
    }
    forall k
      ensures !Named(lines, k) ==>
                AgreeAt(ApplyLines(m, lines), m, k) && AgreeAt(ApplyLines(map[], lines), map[], k)
    {
      if !Named(lines, k) {
        assert forall i :: 0 <= i < |lines| ==> lines[i] in lines;
        UnnamedStays(m, lines, k);
        UnnamedStays(map[], lines, k);
      }
    }
    if forall k :: k in m ==> Named(lines, k) {
      MapsAgree(ApplyLines(m, lines), ApplyLines(map[], lines));
    }
  }

  lemma MapsAgree<V(!new)>(a: map<string, V>, b: map<string, V>)
    requires forall k {:trigger AgreeAt(a, b, k)} :: AgreeAt(a, b, k)
    ensures a == b
  {
    assert forall k :: k in a ==> AgreeAt(a, b, k);
    assert forall k :: k in b ==> AgreeAt(a, b, k);
  }

  /** Appending a line to a log applies it after everything the log already holds. */
  lemma AppendReplays(log: string, line: string)
    requires Terminated(log) && NoNewline(line)
    ensures Terminated(log + (line + "\n")) && Replayed(log + (line + "\n")) == ApplyLine(Replayed(log), line)
  {
    LinesConcat(log, line + "\n");
    OneLine(line);
    var all := Lines(log) + [line];
    assert all[..|all| - 1] == Lines(log);
  }

  /** No replay can produce a key with a space or newline, or a value with a newline. */
  lemma {:induction false} ReplayIsClean(lines: seq<string>, k: string)
    requires forall i :: 0 <= i < |lines| ==> NoNewline(lines[i])
    requires k in ApplyLines(map[], lines)
    ensures Clean(k, ApplyLines(map[], lines)[k])
  {
    var line := lines[|lines| - 1];
    var m := ApplyLines(map[], lines[..|lines| - 1]);
    if k in m && ApplyLine(m, line)[k] == m[k] {
      ReplayIsClean(lines[..|lines| - 1], k);
    }
  }

  // ----- Values of a store -----

  lemma ValuesOfUpdate(m: Store, k: string, e: Entry)
    ensures Values(m[k := e]) == Values(m)[k := e.value]
    ensures Values(m - {k}) == Values(m) - {k}
  {
  }

  function PairMap(pairs: seq<(string, string)>): map<string, string> {
    if pairs == [] then map[] else PairMap(pairs[..|pairs| - 1])[pairs[|pairs| - 1].0 := pairs[|pairs| - 1].1]
  }

  lemma {:induction false} PairMapOfPairs(s: seq<Binding>)
    ensures PairMap(PairsOf(s)) == Values(MapOf(s))
  {
    if s != [] {
      var n := |s| - 1;
      PairMapOfPairs(s[..n]);
      assert PairsOf(s)[..|PairsOf(s)| - 1] == PairsOf(s[..n]);
      ValuesOfUpdate(MapOf(s[..n]), s[n].key, s[n].entry);
    }
  }

  lemma {:induction false} PairsAre(s: seq<Binding>)
    ensures |PairsOf(s)| == |s| && forall i :: 0 <= i < |s| ==> PairsOf(s)[i] == (s[i].key, s[i].entry.value)
  {
    if s != [] {
      PairsAre(s[..|s| - 1]);
    }
  }

  lemma DumpFromStore(h: Hash, t: Table, i: nat)
    requires WellFormed(h, t) && i < |Dump(t)|
    ensures var (k, v) := Dump(t)[i]; k in Contents(t) && Contents(t)[k].value == v
  {
    PairsAre(Flatten(t));
    WalkIsContents(h, t);
    assert Flatten(t)[i] in Flatten(t);
  }

  lemma StoreInDump(h: Hash, t: Table, k: string)
    requires WellFormed(h, t) && k in Contents(t)
    ensures (k, Contents(t)[k].value) in Dump(t)
  {
    PairsAre(Flatten(t));
    WalkIsContents(h, t);
    var i :| 0 <= i < |Flatten(t)| && Flatten(t)[i] == Binding(k, Contents(t)[k]);
    assert Dump(t)[i] == (k, Contents(t)[k].value);
  }

  lemma DumpIsMap(h: Hash, t: Table)
    requires WellFormed(h, t)
    ensures forall i, j :: 0 <= i < j < |Dump(t)| ==> Dump(t)[i].0 != Dump(t)[j].0
    ensures |Dump(t)| == |Contents(t)| && PairMap(Dump(t)) == Values(Contents(t))
  {
    PairsAre(Flatten(t));
    WalkIsContents(h, t);
    PairMapOfPairs(Flatten(t));
  }

  /** The dump of a well-formed table holds the store's keys and values, each key once. */
  lemma DumpHolds(h: Hash, t: Table)
    requires WellFormed(h, t)
    ensures forall i, j :: 0 <= i < j < |Dump(t)| ==> Dump(t)[i].0 != Dump(t)[j].0
    ensures forall i :: 0 <= i < |Dump(t)| ==>
              Dump(t)[i].0 in Contents(t) && Contents(t)[Dump(t)[i].0].value == Dump(t)[i].1
    ensures forall k :: k in Contents(t) ==> (k, Contents(t)[k].value) in Dump(t)
    ensures |Dump(t)| == |Contents(t)| && PairMap(Dump(t)) == Values(Contents(t))
  {
    DumpIsMap(h, t);
    forall i | 0 <= i < |Dump(t)|
      ensures Dump(t)[i].0 in Contents(t) && Contents(t)[Dump(t)[i].0].value == Dump(t)[i].1
    {
      DumpFromStore(h, t, i);
    }
    forall k | k in Contents(t) ensures (k, Contents(t)[k].value) in Dump(t) {
      StoreInDump(h, t, k);
    }
  }

  ghost predicate CleanPairs(pairs: seq<(string, string)>) {
    forall i :: 0 <= i < |pairs| ==> Clean(pairs[i].0, pairs[i].1)
  }

  lemma {:induction false} RewriteIsOneLiners(pairs: seq<(string, string)>)
    requires CleanPairs(pairs)
    ensures forall i :: 0 <= i < |RewriteLines(pairs)| ==> NoNewline(RewriteLines(pairs)[i])
  {
    if pairs != [] {
      RewriteIsOneLiners(pairs[..|pairs| - 1]);
    }
  }

  lemma MergeUpdate(m: map<string, string>, p: map<string, string>, k: string, v: string)
    ensures (m + p)[k := v] == m + p[k := v]
  {
  }

  lemma {:induction false} RewriteReplays(m: map<string, string>, pairs: seq<(string, string)>)
    requires CleanPairs(pairs)
    ensures ApplyLines(m, RewriteLines(pairs)) == m + PairMap(pairs)
  {
    var lines := RewriteLines(pairs);
    if pairs == [] {
      assert lines[..0] == [];
      assert ApplyLine(m, REWRITE_HEADER) == m;
      assert m + map[] == m;
    } else {
      var before, last := pairs[..|pairs| - 1], pairs[|pairs| - 1];
      RewriteReplays(m, before);
      assert lines[..|lines| - 1] == RewriteLines(before);
      ApplySetLine(m + PairMap(before), last.0, last.1);
      MergeUpdate(m, PairMap(before), last.0, last.1);
    }
  }

  /** Compaction: the rewritten log replays to the map of the pairs it was made from. */
  lemma RewriteTextReplays(pairs: seq<(string, string)>)
    requires CleanPairs(pairs)
    ensures Terminated(RewriteText(pairs)) && Replayed(RewriteText(pairs)) == PairMap(pairs)
    ensures forall m :: ApplyLines(m, Lines(RewriteText(pairs))) == m + PairMap(pairs)
  {
    forall m ensures ApplyLines(m, RewriteLines(pairs)) == m + PairMap(pairs) {
      RewriteReplays(m, pairs);
    }
    RewriteIsOneLiners(pairs);
    LinesOfUnlines(RewriteLines(pairs));
    assert map[] + PairMap(pairs) == PairMap(pairs);
  }

  /** A store survives compaction and replay exactly when its keys and values are clean. */
  lemma StoreRewriteIff(h: Hash, t: Table)
    requires WellFormed(h, t)
    ensures (forall k :: k in Contents(t) ==> Clean(k, Contents(t)[k].value)) <==>
            Replayed(RewriteText(Dump(t))) == Values(Contents(t))
  {
    DumpHolds(h, t);
    if forall k :: k in Contents(t) ==> Clean(k, Contents(t)[k].value) {
      RewriteTextReplays(Dump(t));
    } else {
      var k :| k in Contents(t) && !Clean(k, Contents(t)[k].value);
      LogHoldsOnlyClean(RewriteText(Dump(t)), k);
      assert k in Values(Contents(t));
    }
  }

  lemma LogHoldsOnlyClean(log: string, k: string)
    ensures k in Replayed(log) ==> Clean(k, Replayed(log)[k])
  {
    LinesHaveNoNewline(log);
    if k in Replayed(log) {
      ReplayIsClean(Lines(log), k);
    }
  }
}
