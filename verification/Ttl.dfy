/** Deadlines: what a store answers at a time, and why background sweeps cannot be observed by `get`. */
module Ttl {
  import opened Entries

  type Store = map<string, Entry>

  predicate ExpiredAt(e: Entry, now: int) {
    e.expiresAt.Some? && now >= e.expiresAt.value
  }

  function WithDeadline(e: Entry, deadline: int): Entry {
    Entry(e.value, Some(deadline))
  }

  function GetAt(m: Store, k: string, now: int): Option<string> {
    if k in m && !ExpiredAt(m[k], now) then Some(m[k].value) else None
  }

  /** `removed` is what one sweep may take out when its clock readings lie between `start` and `end`. */
  ghost predicate SweepRemoves(m: Store, removed: set<string>, start: int, end: int) {
    && removed <= m.Keys
    && (forall k :: k in m && ExpiredAt(m[k], start) ==> k in removed)
    && (forall k :: k in removed ==> ExpiredAt(m[k], end))
  }

  /** Operations on the engine with the clock readings they take. */
  datatype Event =
    | Set(key: string, value: string)
    | Remove(key: string)
    | Clear
    | Get(key: string, at: int)
    | SetTtl(key: string, ttl: int, at: int)
    | Touch(key: string, first: int, second: int)
    | Sweep(start: int, end: int, removed: set<string>)

  function Step(m: Store, ev: Event): Store {
    match ev
    case Set(k, v) => m[k := Entry(v, None)]
    case Remove(k) => m - {k}
    case Clear => map[]
    case Get(_, _) => m
    case SetTtl(k, ttl, at) => if k in m then m[k := WithDeadline(m[k], at + ttl)] else m
    case Touch(k, first, second) =>
      if k in m && m[k].expiresAt.Some?
      then m[k := WithDeadline(m[k], second + (m[k].expiresAt.value - first))]
      else m
    case Sweep(_, _, removed) => m - removed
  }

  lemma TouchStep(m: Store, k: string, first: int, second: int)
    requires k in m && m[k].expiresAt.Some?
    ensures Step(m, Touch(k, first, second)) == m[k := WithDeadline(m[k], second + (m[k].expiresAt.value - first))]
  {
  }

  /** What each call leaves a later `get` to answer, at any time. */
  lemma CallsAnswer(m: Store, k: string, v: string, now: int)
    ensures GetAt(Step(m, Set(k, v)), k, now) == Some(v)
    ensures GetAt(Step(m, Remove(k)), k, now) == None
    ensures GetAt(Step(m, Clear), k, now) == None
    ensures k !in m ==> GetAt(m, k, now) == None
    ensures k in m && m[k].expiresAt == None ==> GetAt(m, k, now) == Some(m[k].value)
  {
  }

  /** `ev` can change what is stored under `k`, apart from a sweep. */
  predicate Writes(ev: Event, k: string) {
    ev.Clear? || ((ev.Set? || ev.Remove? || ev.SetTtl? || ev.Touch?) && ev.key == k)
  }

  /** A call leaves what every other key holds, and so answers, as it was. */
  lemma OthersKept(m: Store, ev: Event, k: string, now: int)
    requires !Writes(ev, k) && (ev.Sweep? ==> k !in ev.removed)
    ensures k in Step(m, ev) <==> k in m
    ensures k in m ==> Step(m, ev)[k] == m[k]
    ensures GetAt(Step(m, ev), k, now) == GetAt(m, k, now)
  {
  }

  /** After `set_ttl` the key answers until its deadline and not from then on; `touch` keeps the time left. */
  lemma DeadlineIsExact(m: Store, k: string, ttl: int, at: int, first: int, second: int, now: int)
    requires k in m
    ensures GetAt(Step(m, SetTtl(k, ttl, at)), k, now) == if now < at + ttl then Some(m[k].value) else None
    ensures GetAt(Step(m, Touch(k, first, second)), k, now + (second - first)) == GetAt(m, k, now)
  {
  }

  /** The clock never runs backwards: `ev` may follow time `now`. */
  predicate InOrder(ev: Event, now: int) {
    match ev
    case Get(_, at) => now <= at
    case SetTtl(_, _, at) => now <= at
    case Touch(_, first, second) => now <= first <= second
    case Sweep(start, end, _) => now <= start <= end
    case _ => true
  }

  function After(ev: Event, now: int): int {
    match ev
    case Get(_, at) => at
    case SetTtl(_, _, at) => at
    case Touch(_, _, second) => second
    case Sweep(_, end, _) => end
    case _ => now
  }

  /** A run from store `m` at time `now` whose sweeps are real ones. */
  ghost predicate Legal(m: Store, run: seq<Event>, now: int)
    decreases |run|
  {
    run != [] ==>
      && InOrder(run[0], now)
      && (run[0].Sweep? ==> SweepRemoves(m, run[0].removed, run[0].start, run[0].end))
      && Legal(Step(m, run[0]), run[1..], After(run[0], now))
  }

  /** The store after a run. */
  function Final(m: Store, run: seq<Event>): Store
    decreases |run|
  {
    if run == [] then m else Final(Step(m, run[0]), run[1..])
  }

  function End(run: seq<Event>, now: int): int
    decreases |run|
  {
    if run == [] then now else End(run[1..], After(run[0], now))
  }

  function AnswersTo(m: Store, ev: Event): seq<Option<string>> {
    if ev.Get? then [GetAt(m, ev.key, ev.at)] else []
  }

  function Answers(m: Store, run: seq<Event>): seq<Option<string>>
    decreases |run|
  {
    if run == [] then [] else AnswersTo(m, run[0]) + Answers(Step(m, run[0]), run[1..])
  }

  function WithoutSweeps(run: seq<Event>): seq<Event> {
    if run == [] then []
    else (if run[0].Sweep? then [] else [run[0]]) + WithoutSweeps(run[1..])
  }

  /** `ev` gives an expired key a deadline in the future. */
  predicate Revives(m: Store, ev: Event) {
    ev.SetTtl? && ev.key in m && ExpiredAt(m[ev.key], ev.at) && ev.ttl > 0
  }

  predicate NeverRevives(m: Store, run: seq<Event>)
    decreases |run|
  {
    run != [] ==> !Revives(m, run[0]) && NeverRevives(Step(m, run[0]), run[1..])
  }

  /** `m` is `full` less some entries that have expired by `now`. */
  ghost predicate Swept(m: Store, full: Store, now: int) {
    && (forall k :: k in m ==> k in full && m[k] == full[k])
    && (forall k :: k in full && k !in m ==> ExpiredAt(full[k], now))
  }

  lemma StepKeepsSwept(m: Store, full: Store, ev: Event, now: int)
    requires Swept(m, full, now) && InOrder(ev, now) && !ev.Sweep? && !Revives(full, ev)
    ensures Swept(Step(m, ev), Step(full, ev), After(ev, now))
    ensures ev.Get? ==> GetAt(m, ev.key, ev.at) == GetAt(full, ev.key, ev.at)
  {
  }

  lemma {:induction false} SweptAnswers(m: Store, full: Store, run: seq<Event>, now: int)
    requires Swept(m, full, now) && Legal(m, run, now) && NeverRevives(full, WithoutSweeps(run))
    ensures Answers(m, run) == Answers(full, WithoutSweeps(run))
    decreases |run|
  {
    if run != [] {
      var ev, rest := run[0], WithoutSweeps(run[1..]);
      if ev.Sweep? {
        assert WithoutSweeps(run) == rest;
        assert Answers(m, run) == Answers(Step(m, ev), run[1..]);
        SweptAnswers(Step(m, ev), full, run[1..], After(ev, now));
      } else {
        assert WithoutSweeps(run) == [ev] + rest && WithoutSweeps(run)[1..] == rest;
        StepKeepsSwept(m, full, ev, now);
        SweptAnswers(Step(m, ev), Step(full, ev), run[1..], After(ev, now));
      }
    }
  }

  /** Sweeps at any points of a run that revives no expired key change no answer of `get`. */
  lemma SweepsAreInvisible(m: Store, run: seq<Event>, now: int)
    requires Legal(m, run, now) && NeverRevives(m, WithoutSweeps(run))
    ensures Answers(m, run) == Answers(m, WithoutSweeps(run))
  {
    SweptAnswers(m, m, run, now);
  }

  /** The condition is needed: wherever a key is revived, a sweep just before would have shown. */
  lemma RevivalIsVisible(m: Store, ev: Event)
    requires Revives(m, ev)
    ensures var sweep := Sweep(ev.at, ev.at, set k | k in m && ExpiredAt(m[k], ev.at));
            var run := [sweep, ev, Get(ev.key, ev.at)];
            Legal(m, run, ev.at) && Answers(m, run) != Answers(m, WithoutSweeps(run))
  {
    var sweep := Sweep(ev.at, ev.at, set k | k in m && ExpiredAt(m[k], ev.at));
    var get := Get(ev.key, ev.at);
    var run, swept := [sweep, ev, get], Step(m, sweep);
    assert run[1..] == [ev, get];
    AnswersOfPair(m, ev, get);
    AnswersOfPair(swept, ev, get);
    assert Legal(m, run, ev.at);
    assert Answers(m, run) == Answers(swept, [ev, get]);
    assert WithoutSweeps(run) == WithoutSweeps([ev, get]) == [ev, get];
    assert ev.key !in Step(swept, ev);
  }

  lemma AnswersOfPair(m: Store, ev: Event, get: Event)
    requires get.Get? && !ev.Get? && !ev.Sweep?
    ensures Answers(m, [ev, get]) == [GetAt(Step(m, ev), get.key, get.at)]
    ensures WithoutSweeps([ev, get]) == [ev, get]
    ensures forall now :: Legal(m, [ev, get], now) <==> InOrder(ev, now) && InOrder(get, After(ev, now))
  {
    assert [ev, get][1..] == [get] && [get][1..] == [];
    assert Answers(Step(m, ev), [get]) == [GetAt(Step(m, ev), get.key, get.at)];
    assert WithoutSweeps([get]) == [get];
    assert forall now :: Legal(Step(m, ev), [get], now) <==> InOrder(get, now);
  }

  // ----- What a get answers after a whole run -----

  lemma {:induction false} EndIsLater(m: Store, run: seq<Event>, now: int)
    requires Legal(m, run, now)
    ensures End(run, now) >= now
    decreases |run|
  {
    if run != [] {
      EndIsLater(Step(m, run[0]), run[1..], After(run[0], now));
    }
  }

  lemma {:induction false} SplitRun(m: Store, run: seq<Event>, i: nat, now: int)
    requires Legal(m, run, now) && i <= |run|
    ensures var before, rest, time := Final(m, run[..i]), run[i..], End(run[..i], now);
            && Legal(m, run[..i], now) && Legal(before, rest, time)
            && Final(m, run) == Final(before, rest) && End(run, now) == End(rest, time)
    decreases i
  {
    if i == 0 {
      assert run[..0] == [] && run[0..] == run;
    } else {
      SplitRun(Step(m, run[0]), run[1..], i - 1, After(run[0], now));
      assert run[..i][1..] == run[1..][..i - 1] && run[1..][i - 1..] == run[i..];
    }
  }

  ghost predicate NeverWritten(run: seq<Event>, k: string) {
    forall j :: 0 <= j < |run| ==> !Writes(run[j], k)
  }

  /** While nothing writes `k`, its entry stays as it is until a sweep finds it expired. */
  lemma {:induction false} UnwrittenStays(m: Store, run: seq<Event>, k: string, now: int)
    requires Legal(m, run, now) && NeverWritten(run, k)
    ensures k in Final(m, run) ==> k in m && Final(m, run)[k] == m[k]
    ensures k in m && k !in Final(m, run) ==> ExpiredAt(m[k], End(run, now))
    decreases |run|
  {
    if run != [] {
      var next, rest, later := Step(m, run[0]), run[1..], After(run[0], now);
      UnwrittenStays(next, rest, k, later);
      EndIsLater(next, rest, later);
    }
  }

  lemma UnwrittenAnswers(m: Store, run: seq<Event>, k: string, now: int, at: int)
    requires Legal(m, run, now) && NeverWritten(run, k)
    ensures at >= End(run, now) || (k in m ==> m[k].expiresAt == None) ==>
              GetAt(Final(m, run), k, at) == GetAt(m, k, at)
  {
    UnwrittenStays(m, run, k, now);
  }

  /** The last event of `run` that can write `k` is the one at `i`. */
  ghost predicate LastWrite(run: seq<Event>, i: nat, k: string) {
    i < |run| && Writes(run[i], k) && NeverWritten(run[i + 1..], k)
  }

  lemma FromLastWrite(m: Store, run: seq<Event>, i: nat, k: string, now: int, at: int)
    requires Legal(m, run, now) && LastWrite(run, i, k)
    ensures var s := Step(Final(m, run[..i]), run[i]);
            at >= End(run, now) || (k in s ==> s[k].expiresAt == None) ==>
              GetAt(Final(m, run), k, at) == GetAt(s, k, at)
  {
    SplitRun(m, run, i, now);
    var before, rest, time := Final(m, run[..i]), run[i..], End(run[..i], now);
    assert rest[0] == run[i] && rest[1..] == run[i + 1..];
    UnwrittenAnswers(Step(before, run[i]), run[i + 1..], k, After(run[i], time), at);
  }

  /**
   * In every run, sweeps included: a key last written by `set` answers the value set, at any time; one
   * last written by `remove` or `clear_all` answers nothing.
   */
  lemma LastSetAnswers(m: Store, run: seq<Event>, i: nat, k: string, now: int, at: int)
    requires Legal(m, run, now) && LastWrite(run, i, k)
    ensures run[i].Set? ==> GetAt(Final(m, run), k, at) == Some(run[i].value)
    ensures run[i].Remove? || run[i].Clear? ==> GetAt(Final(m, run), k, at) == None
  {
    FromLastWrite(m, run, i, k, now, at);
  }

  lemma {:induction false} NeverSetAnswers(m: Store, run: seq<Event>, k: string, at: int)
    requires k !in m && forall j :: 0 <= j < |run| && run[j].Set? ==> run[j].key != k
    ensures GetAt(Final(m, run), k, at) == None
    decreases |run|
  {
    if run != [] {
      NeverSetAnswers(Step(m, run[0]), run[1..], k, at);
    }
  }

  /** Set, then given a deadline, then left alone: the value until the deadline, and nothing from then on. */
  lemma DeadlineAnswers(m: Store, run: seq<Event>, i: nat, j: nat, k: string, now: int, at: int)
    requires Legal(m, run, now) && i < j && LastWrite(run, j, k) && LastWrite(run[..j], i, k)
    requires run[i].Set? && run[j].SetTtl? && at >= End(run, now)
    ensures GetAt(Final(m, run), k, at) == if at < run[j].at + run[j].ttl then Some(run[i].value) else None
  {
    FromLastWrite(m, run, j, k, now, at);
    SetStays(m, run, i, j, k, now);
  }

  lemma SetStays(m: Store, run: seq<Event>, i: nat, j: nat, k: string, now: int)
    requires Legal(m, run, now) && j <= |run| && LastWrite(run[..j], i, k) && run[i].Set?
    ensures k in Final(m, run[..j]) && Final(m, run[..j])[k] == Entry(run[i].value, None)
  {
    SplitRun(m, run, j, now);
    SplitRun(m, run[..j], i, now);
    var rest := run[..j][i..];
    var s := Step(Final(m, run[..i]), run[i]);
    assert run[..j][..i] == run[..i] && rest[0] == run[i] && rest[1..] == run[..j][i + 1..];
    UnwrittenStays(s, rest[1..], k, After(run[i], End(run[..i], now)));
  }

  /** As `DeadlineAnswers`, with a `touch` that moves the deadline by the time between its two readings. */
  lemma TouchAnswers(m: Store, run: seq<Event>, i: nat, j: nat, l: nat, k: string, now: int, at: int)
    requires Legal(m, run, now) && i < j < l
    requires LastWrite(run, l, k) && LastWrite(run[..l], j, k) && LastWrite(run[..j], i, k)
    requires run[i].Set? && run[j].SetTtl? && run[l].Touch? && at >= End(run, now)
    ensures var deadline := run[j].at + run[j].ttl + (run[l].second - run[l].first);
            GetAt(Final(m, run), k, at) == if at < deadline then Some(run[i].value) else None
  {
    FromLastWrite(m, run, l, k, now, at);
    TtlStays(m, run, i, j, l, k, now);
    SplitRun(m, run, l, now);
    assert run[l..][0] == run[l] && run[l..][1..] == run[l + 1..];
    EndIsLater(Step(Final(m, run[..l]), run[l]), run[l + 1..], run[l].second);
  }

  lemma TtlStays(m: Store, run: seq<Event>, i: nat, j: nat, l: nat, k: string, now: int)
    requires Legal(m, run, now) && i < j < l <= |run|
    requires LastWrite(run[..l], j, k) && LastWrite(run[..j], i, k) && run[i].Set? && run[j].SetTtl?
    ensures var s, deadline := Final(m, run[..l]), run[j].at + run[j].ttl;
            && (k in s ==> s[k] == Entry(run[i].value, Some(deadline)))
            && (k !in s ==> End(run[..l], now) >= deadline)
  {
    SplitRun(m, run, l, now);
    SplitRun(m, run[..l], j, now);
    SetStays(m, run, i, j, k, now);
    var rest := run[..l][j..];
    assert run[..l][..j] == run[..j] && rest[0] == run[j] && rest[1..] == run[..l][j + 1..];
    UnwrittenStays(Step(Final(m, run[..j]), run[j]), rest[1..], k, After(run[j], End(run[..j], now)));
  }

  lemma {:induction false} AppendFinal(m: Store, run: seq<Event>, ev: Event, now: int)
    ensures Final(m, run + [ev]) == Step(Final(m, run), ev) && End(run + [ev], now) == After(ev, End(run, now))
    decreases |run|
  {
    var all := run + [ev];
    if run == [] {
      assert all == [ev] && all[1..] == [];
    } else {
      assert all[0] == run[0] && all[1..] == run[1..] + [ev];
      AppendFinal(Step(m, run[0]), run[1..], ev, After(run[0], now));
    }
  }

  lemma {:induction false} AppendAnswers(m: Store, run: seq<Event>, ev: Event)
    ensures Answers(m, run + [ev]) == Answers(m, run) + AnswersTo(Final(m, run), ev)
    decreases |run|
  {
    var all := run + [ev];
    if run == [] {
      assert all == [ev] && all[1..] == [];
      assert Answers(Step(m, ev), all[1..]) == [];
    } else {
      var next := Step(m, run[0]);
      assert all[0] == run[0] && all[1..] == run[1..] + [ev];
      AppendAnswers(next, run[1..], ev);
      JoinAnswers(AnswersTo(m, run[0]), Answers(next, run[1..]), AnswersTo(Final(next, run[1..]), ev));
    }
  }

  lemma JoinAnswers(a: seq<Option<string>>, b: seq<Option<string>>, c: seq<Option<string>>)
    ensures a + (b + c) == (a + b) + c
  {
  }

  /** `ev` may come next in store `s` at time `time`. */
  ghost predicate MayFollow(s: Store, ev: Event, time: int) {
    InOrder(ev, time) && (ev.Sweep? ==> SweepRemoves(s, ev.removed, ev.start, ev.end))
  }

  lemma {:induction false} AppendLegal(m: Store, run: seq<Event>, ev: Event, now: int)
    requires Legal(m, run, now)
    ensures Legal(m, run + [ev], now) <==> MayFollow(Final(m, run), ev, End(run, now))
    decreases |run|
  {
    var all := run + [ev];
    if run == [] {
      assert all == [ev] && all[1..] == [];
    } else {
      assert all[0] == run[0] && all[1..] == run[1..] + [ev];
      AppendLegal(Step(m, run[0]), run[1..], ev, After(run[0], now));
    }
  }

  /** A run goes on from the store and the time it has reached, and a `get` answers from there. */
  lemma AppendEvent(m: Store, run: seq<Event>, ev: Event, now: int)
    requires Legal(m, run, now)
    ensures var s, time := Final(m, run), End(run, now);
            && Final(m, run + [ev]) == Step(s, ev) && End(run + [ev], now) == After(ev, time)
            && Answers(m, run + [ev]) == Answers(m, run) + AnswersTo(s, ev)
            && (Legal(m, run + [ev], now) <==> MayFollow(s, ev, time))
  {
    AppendFinal(m, run, ev, now);
    AppendAnswers(m, run, ev);
    AppendLegal(m, run, ev, now);
  }
}
