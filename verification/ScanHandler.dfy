/** The SCAN command: textual cursors, options, the reply, and a client that pages to the end. */
module ScanHandler {
  import opened Entries
  import opened Text
  import opened Buckets
  import opened Glob
  import opened HashTables
  import opened Scanner
  import opened Paging
  import opened Engine
  import opened Resp

  function EncodeCursor(c: Cursor): string {
    if c == Cursor(0, 0) then "0" else Print(c.bucket) + ":" + Print(c.chain)
  }

  /** None when `std::stoull` throws. */
  function DecodeCursor(token: string): Option<Cursor> {
    if token == "" || token == "0" then Some(Cursor(0, 0))
    else
      var sep := IndexOfChar(token, ':');
      match Stoull(token[..sep])
      case Number(bucket) =>
        if sep == |token| then Some(Cursor(bucket, 0))
        else
          (match Stoull(token[sep + 1..])
           case Number(chain) => Some(Cursor(bucket, chain))
           case _ => None)
      case _ => None
  }

  predicate FitsWords(c: Cursor) {
    c.bucket < U64 && c.chain < U64
  }

  /** The text form carries every 64-bit cursor, and only the start prints as "0". */
  lemma DecodeUndoesEncode(c: Cursor)
    requires FitsWords(c)
    ensures DecodeCursor(EncodeCursor(c)) == Some(c)
    ensures EncodeCursor(c) == "0" <==> c == Cursor(0, 0)
  {
    if c != Cursor(0, 0) {
      var b, i := Print(c.bucket), Print(c.chain);
      var token := b + [':'] + i;
      assert token == EncodeCursor(c);
      NoColon(c.bucket);
      IndexOfCharIn(b, ':', i);
      assert token[..|b|] == b && token[|b| + 1..] == i && |token| >= 2;
      StoullPrint(c.bucket);
      StoullPrint(c.chain);
    }
  }

  /** The forms a cursor may be typed in: nothing, a bucket number, or a bucket and a chain index. */
  lemma CursorForms(b: nat, i: nat)
    requires b < U64 && i < U64
    ensures DecodeCursor("") == Some(Cursor(0, 0))
    ensures DecodeCursor(Print(b)) == Some(Cursor(b, 0))
    ensures DecodeCursor(Print(b) + ":" + Print(i)) == Some(Cursor(b, i))
  {
    StoullPrint(b);
    StoullPrint(i);
    NoColon(b);
    var plain := Print(b);
    assert IndexOfChar(plain, ':') == |plain| && plain[..|plain|] == plain;
    var token := Print(b) + [':'] + Print(i);
    IndexOfCharIn(Print(b), ':', Print(i));
    assert token[..|Print(b)|] == Print(b) && token[|Print(b)| + 1..] == Print(i) && |token| >= 2;
    if plain == "0" {
      ValueOfPrint(b);
      assert Value("0") == 0;
    }
  }

  lemma NoColon(n: nat)
    ensures ':' !in Print(n)
  {
    assert forall i :: 0 <= i < |Print(n)| ==> IsDigit(Print(n)[i]);
  }

  /** The option loop from argument `i` on; None when COUNT does not parse. */
  function Options(args: seq<string>, i: nat, count: nat, pattern: string): Option<(nat, string)>
    decreases |args| - i
  {
    if i >= |args| then Some((count, pattern))
    else if args[i] == "COUNT" && i + 1 < |args| then
      match Stoull(args[i + 1])
      case Number(n) => Options(args, i + 2, n, pattern)
      case _ => None
    else if args[i] == "MATCH" && i + 1 < |args| then Options(args, i + 2, count, args[i + 1])
    else Options(args, i + 1, count, pattern)
  }

  // ----- What the option loop reads -----

  /** An option of a request, or a word the loop passes over. */
  datatype Opt = Count(text: string) | Match(pattern: string) | Ignored(word: string)

  predicate Proper(opts: seq<Opt>) {
    forall i :: 0 <= i < |opts| && opts[i].Ignored? ==> opts[i].word != "COUNT" && opts[i].word != "MATCH"
  }

  predicate CountsParse(opts: seq<Opt>) {
    forall i :: 0 <= i < |opts| && opts[i].Count? ==> Stoull(opts[i].text).Number?
  }

  function WordsOf(opt: Opt): seq<string> {
    match opt
    case Count(text) => ["COUNT", text]
    case Match(pattern) => ["MATCH", pattern]
    case Ignored(word) => [word]
  }

  function Words(opts: seq<Opt>): seq<string> {
    if opts == [] then [] else WordsOf(opts[0]) + Words(opts[1..])
  }

  /** The number of the last COUNT, or `otherwise`. */
  function LastCount(opts: seq<Opt>, otherwise: nat): nat
    requires CountsParse(opts)
  {
    if opts == [] then otherwise
    else if opts[|opts| - 1].Count? then Stoull(opts[|opts| - 1].text).value
    else LastCount(opts[..|opts| - 1], otherwise)
  }

  /** The pattern of the last MATCH, or `otherwise`. */
  function LastMatch(opts: seq<Opt>, otherwise: string): string {
    if opts == [] then otherwise
    else if opts[|opts| - 1].Match? then opts[|opts| - 1].pattern
    else LastMatch(opts[..|opts| - 1], otherwise)
  }

  lemma {:induction false} LastCountFront(opts: seq<Opt>, otherwise: nat)
    requires opts != [] && CountsParse(opts)
    ensures LastCount(opts, otherwise) ==
            LastCount(opts[1..], if opts[0].Count? then Stoull(opts[0].text).value else otherwise)
  {
    var n := |opts| - 1;
    if n > 0 {
      LastCountFront(opts[..n], otherwise);
      assert opts[..n][1..] == opts[1..][..n - 1];
    }
  }

  lemma {:induction false} LastMatchFront(opts: seq<Opt>, otherwise: string)
    requires opts != []
    ensures LastMatch(opts, otherwise) == LastMatch(opts[1..], if opts[0].Match? then opts[0].pattern else otherwise)
  {
    var n := |opts| - 1;
    if n > 0 {
      LastMatchFront(opts[..n], otherwise);
      assert opts[..n][1..] == opts[1..][..n - 1];
    }
  }

  lemma WordsFront(before: seq<string>, opts: seq<Opt>, lone: seq<string>)
    requires opts != []
    ensures var args, next := before + Words(opts) + lone, before + WordsOf(opts[0]);
            args == next + Words(opts[1..]) + lone && args[|before|..|next|] == WordsOf(opts[0])
  {
    Regrouped(before, WordsOf(opts[0]), Words(opts[1..]), lone);
  }

  lemma Regrouped(a: seq<string>, b: seq<string>, c: seq<string>, d: seq<string>)
    ensures a + (b + c) + d == (a + b) + c + d
    ensures (a + (b + c) + d)[|a|..|a + b|] == b
  {
  }

  lemma OneOption(args: seq<string>, i: nat, opt: Opt, count: nat, pattern: string)
    requires i + |WordsOf(opt)| <= |args| && args[i..i + |WordsOf(opt)|] == WordsOf(opt) && Proper([opt])
    ensures var n := if opt.Count? then Stoull(opt.text) else Number(count);
            var p := if opt.Match? then opt.pattern else pattern;
            Options(args, i, count, pattern) ==
            if n.Number? then Options(args, i + |WordsOf(opt)|, n.value, p) else None
  {
    assert args[i..i + |WordsOf(opt)|][0] == args[i];
    if !opt.Ignored? {
      assert args[i..i + 2][1] == args[i + 1];
    } else {
      assert [opt][0] == opt;
    }
  }

  lemma FirstOption(before: seq<string>, opts: seq<Opt>, lone: seq<string>, count: nat, pattern: string)
    requires opts != [] && Proper(opts)
    ensures var opt, next := opts[0], before + WordsOf(opts[0]);
            var n := if opt.Count? then Stoull(opt.text) else Number(count);
            var p := if opt.Match? then opt.pattern else pattern;
            Options(before + Words(opts) + lone, |before|, count, pattern) ==
            if n.Number? then Options(next + Words(opts[1..]) + lone, |next|, n.value, p) else None
  {
    WordsFront(before, opts, lone);
    OneOption(before + Words(opts) + lone, |before|, opts[0], count, pattern);
  }

  lemma {:induction false} OptionsFrom(before: seq<string>, opts: seq<Opt>, lone: seq<string>, count: nat,
                                       pattern: string)
    requires Proper(opts) && |lone| <= 1
    ensures Options(before + Words(opts) + lone, |before|, count, pattern) ==
            if CountsParse(opts) then Some((LastCount(opts, count), LastMatch(opts, pattern))) else None
    decreases |opts|
  {
    if opts == [] {
      var args := before + Words(opts) + lone;
      assert Options(args, |args|, count, pattern) == Some((count, pattern));
    } else {
      var opt, next := opts[0], before + WordsOf(opts[0]);
      FirstOption(before, opts, lone, count, pattern);
      if opt.Count? && !Stoull(opt.text).Number? {
        assert !CountsParse(opts);
      } else {
        OptionsFrom(next, opts[1..], lone, if opt.Count? then Stoull(opt.text).value else count,
                    if opt.Match? then opt.pattern else pattern);
        RestParses(opts);
        if CountsParse(opts) {
          LastCountFront(opts, count);
          LastMatchFront(opts, pattern);
        }
      }
    }
  }

  lemma RestParses(opts: seq<Opt>)
    requires opts != [] && (opts[0].Count? ==> Stoull(opts[0].text).Number?)
    ensures CountsParse(opts) <==> CountsParse(opts[1..])
  {
    if CountsParse(opts[1..]) {
      forall i | 0 <= i < |opts| && opts[i].Count? ensures Stoull(opts[i].text).Number? {
        assert i > 0 ==> opts[i] == opts[1..][i - 1];
      }
    }
  }

  /**
   * What a request asks for: the last COUNT and the last MATCH, or 10 and "*" without them; a last COUNT
   * or MATCH with nothing after it and all other words count for nothing; a COUNT that is no number throws.
   */
  lemma OptionsRead(token: string, opts: seq<Opt>, lone: seq<string>)
    requires Proper(opts) && |lone| <= 1
    ensures Options([token] + Words(opts) + lone, 1, 10, "*") ==
            if CountsParse(opts) then Some((LastCount(opts, 10), LastMatch(opts, "*"))) else None
  {
    OptionsFrom([token], opts, lone, 10, "*");
  }

  /** Every request is of the form `OptionsRead` speaks of. */
  lemma {:induction false} EveryRequest(words: seq<string>) returns (opts: seq<Opt>, lone: seq<string>)
    ensures Proper(opts) && |lone| <= 1 && words == Words(opts) + lone
    decreases |words|
  {
    opts, lone := [], words;
    if |words| > 0 {
      var option := words[0] == "COUNT" || words[0] == "MATCH";
      if !option || |words| > 1 {
        var opt := if !option then Ignored(words[0])
                   else if words[0] == "COUNT" then Count(words[1]) else Match(words[1]);
        var more;
        more, lone := EveryRequest(words[|WordsOf(opt)|..]);
        opts := [opt] + more;
        assert opts[1..] == more;
        assert words == WordsOf(opt) + words[|WordsOf(opt)|..];
        forall i | 0 <= i < |opts| && opts[i].Ignored? ensures opts[i].word != "COUNT" && opts[i].word != "MATCH" {
          assert i > 0 ==> opts[i] == more[i - 1];
        }
      }
    }
  }

  // ----- The reply -----

  function Somes(keys: seq<string>): (r: seq<Option<string>>)
    ensures |r| == |keys| && forall i :: 0 <= i < |keys| ==> r[i] == Some(keys[i])
  {
    seq(|keys|, i requires 0 <= i < |keys| => Some(keys[i]))
  }

  function ScanReply(next: string, keys: seq<string>): string {
    "*2\r\n" + Element(Some(next)) + ArrayHead(|keys|) + Elements(Somes(keys))
  }

  function NextToken(page: Page): string {
    if page.finished then "0" else EncodeCursor(page.next)
  }

  /** The reply to SCAN on a table; None when a number does not parse and the exception escapes. */
  function ScanResponse(t: Table, args: seq<string>): Option<string> {
    if args == [] then Some(Err("wrong number of arguments for SCAN"))
    else
      match DecodeCursor(args[0])
      case None => None
      case Some(cursor) =>
        match Options(args, 1, 10, "*")
        case None => None
        case Some((count, pattern)) =>
          var page := PageAt(t, cursor, count, pattern);
          Some(ScanReply(NextToken(page), page.keys))
  }

  /** `handle_scan` */
  method HandleScan(storage: StorageEngine, args: seq<string>) returns (reply: Option<string>)
    requires storage.Valid()
    ensures reply == ScanResponse(storage.table.chains, args)
  {
    if |args| < 1 {
      return Some(Err("wrong number of arguments for SCAN"));
    }
    var cursor := DecodeCursor(args[0]);
    if cursor == None {
      return None;
    }
    var count: nat, pattern, i := 10, "*", 1;
    while i < |args|
      invariant Options(args, 1, 10, "*") == Options(args, i, count, pattern)
    {
      if args[i] == "COUNT" && i + 1 < |args| {
        var n := Stoull(args[i + 1]);
        if !n.Number? {
          return None;
        }
        count, i := n.value, i + 1;
      } else if args[i] == "MATCH" && i + 1 < |args| {
        pattern, i := args[i + 1], i + 1;
      }
      i := i + 1;
    }
    var page := storage.ScanKeys(cursor.value, count, pattern);
    var next := if page.finished then "0" else EncodeCursor(page.next);
    reply := WriteReply(next, page.keys);
  }

  method WriteReply(next: string, keys: seq<string>) returns (reply: Option<string>)
    ensures reply == Some(ScanReply(next, keys))
  {
    var out := "*2\r\n" + (Bulk(next) + CRLF);
    out := out + ("*" + Print(|keys|) + CRLF);
    var body := "";
    ghost var parts := Parts(Somes(keys));
    for j := 0 to |keys|
      invariant body == Concat(parts[..j])
    {
      assert parts[..j + 1][..j] == parts[..j];
      body := body + (Bulk(keys[j]) + CRLF);
    }
    assert parts[..|keys|] == parts;
    return Some(out + body);
  }

  function Strs(keys: seq<string>): (r: seq<Reply>)
    ensures |r| == |keys| && forall i :: 0 <= i < |keys| ==> r[i] == Str(keys[i])
  {
    seq(|keys|, i requires 0 <= i < |keys| => Str(keys[i]))
  }

  /** A decoder reads the cursor and the keys back, whatever bytes they hold. */
  lemma ScanReplyEncodes(next: string, keys: seq<string>)
    ensures Encodes(ScanReply(next, keys), Array([Str(next), Array(Strs(keys))]))
  {
    var list := ArrayHead(|keys|) + Elements(Somes(keys));
    ElementsEncode(Somes(keys));
    assert AsReplies(Somes(keys)) == Strs(keys);
    ElementEncodes(Some(next));
    var parts, replies := [Element(Some(next)), list], [Str(next), Array(Strs(keys))];
    assert EncodeAll(parts, replies) by {
      forall i | 0 <= i < 2 ensures Encodes(parts[i], replies[i]) {
      }
    }
    ArrayEncodes(parts, replies);
    TwoParts(Element(Some(next)), list);
    Regroup("*2\r\n", Element(Some(next)), ArrayHead(|keys|), Elements(Somes(keys)));
  }

  lemma Regroup(a: string, b: string, c: string, d: string)
    ensures a + b + c + d == a + (b + (c + d))
  {
  }

  lemma TwoParts(a: string, b: string)
    ensures Concat([a, b]) == a + b && ArrayHead(2) == "*2\r\n"
  {
    assert [a, b][..1] == [a] && [a][..0] == [];
    assert Concat([a]) == a;
    assert Print(2) == "2";
  }

  /** Every link of the table has a 64-bit position, as `size_t` and `uint64_t` make sure. */
  ghost predicate WordSized(t: Table) {
    |t| < U64 && forall b :: 0 <= b < |t| ==> |t[b]| < U64
  }

  /** A decoder consumes the reply whole and gets this cursor and these keys. */
  ghost predicate Shows(reply: Option<string>, next: string, keys: seq<string>) {
    reply.Some? && Decode(reply.value + "") == Got(Array([Str(next), Array(Strs(keys))]), "")
  }

  /**
   * The reply shows the first matching keys from the cursor on, `count` of them or all when there are
   * fewer, and the next cursor, which is "0" exactly when there are fewer or none were asked for.
   */
  ghost predicate ShowsPage(reply: Option<string>, t: Table, cursor: Cursor, count: nat, pattern: string) {
    var all, next := MatchingKeys(Rest(t, cursor), pattern), NextToken(PageAt(t, cursor, count, pattern));
    && Shows(reply, next, all[..if count < |all| then count else |all|])
    && (next == "0" <==> count == 0 || |all| < count)
  }

  lemma PageShows(t: Table, args: seq<string>, cursor: Cursor, count: nat, pattern: string)
    requires args != [] && DecodeCursor(args[0]) == Some(cursor) && Options(args, 1, 10, "*") == Some((count, pattern))
    ensures var page := PageAt(t, cursor, count, pattern); Shows(ScanResponse(t, args), NextToken(page), page.keys)
    ensures WordSized(t) ==> ShowsPage(ScanResponse(t, args), t, cursor, count, pattern)
  {
    var page := PageAt(t, cursor, count, pattern);
    ScanReplyEncodes(NextToken(page), page.keys);
    EncodedPartReads(ScanReply(NextToken(page), page.keys), Array([Str(NextToken(page)), Array(Strs(page.keys))]), "");
    PageIs(t, cursor, count, pattern);
    if count > 0 && WordSized(t) {
      PageStep(t, cursor, count, pattern);
    }
  }

  /** What any request without error answers. */
  lemma ReplyShows(t: Table, token: string, cursor: Cursor, opts: seq<Opt>, lone: seq<string>)
    requires DecodeCursor(token) == Some(cursor) && Proper(opts) && CountsParse(opts) && |lone| <= 1
    ensures var args, count, pattern := [token] + Words(opts) + lone, LastCount(opts, 10), LastMatch(opts, "*");
            var page := PageAt(t, cursor, count, pattern);
            && Shows(ScanResponse(t, args), NextToken(page), page.keys)
            && (WordSized(t) ==> ShowsPage(ScanResponse(t, args), t, cursor, count, pattern))
  {
    OptionsRead(token, opts, lone);
    PageShows(t, [token] + Words(opts) + lone, cursor, LastCount(opts, 10), LastMatch(opts, "*"));
  }

  /** A request throws exactly when its cursor or one of its counts does not parse. */
  lemma ThrowsIff(t: Table, token: string, opts: seq<Opt>, lone: seq<string>)
    requires Proper(opts) && |lone| <= 1
    ensures ScanResponse(t, [token] + Words(opts) + lone) == None <==>
            DecodeCursor(token) == None || !CountsParse(opts)
  {
    OptionsRead(token, opts, lone);
    assert ([token] + Words(opts) + lone)[0] == token;
  }

  /** `SCAN token` asks for ten keys of any form. */
  lemma BareReply(t: Table, token: string, cursor: Cursor)
    requires DecodeCursor(token) == Some(cursor) && WordSized(t)
    ensures ShowsPage(ScanResponse(t, [token]), t, cursor, 10, "*")
  {
    assert Options([token], 1, 10, "*") == Some((10, "*"));
    PageShows(t, [token], cursor, 10, "*");
  }

  lemma CountReply(t: Table, token: string, cursor: Cursor, count: nat)
    requires DecodeCursor(token) == Some(cursor) && WordSized(t) && count < U64
    ensures ShowsPage(ScanResponse(t, [token, "COUNT", Print(count)]), t, cursor, count, "*")
  {
    var args := [token, "COUNT", Print(count)];
    StoullPrint(count);
    assert Options(args, 3, count, "*") == Some((count, "*"));
    PageShows(t, args, cursor, count, "*");
  }

  lemma MatchReply(t: Table, token: string, cursor: Cursor, pattern: string)
    requires DecodeCursor(token) == Some(cursor) && WordSized(t)
    ensures ShowsPage(ScanResponse(t, [token, "MATCH", pattern]), t, cursor, 10, pattern)
  {
    var args := [token, "MATCH", pattern];
    assert Options(args, 3, 10, pattern) == Some((10, pattern));
    PageShows(t, args, cursor, 10, pattern);
  }

  /** An unfinished page prints a cursor other than "0" that decodes to where the walk stopped. */
  lemma PageStep(t: Table, cursor: Cursor, count: nat, pattern: string)
    requires WordSized(t) && 0 < count
    ensures var page := PageAt(t, cursor, count, pattern);
            && (page.finished <==> NextToken(page) == "0") && (page.finished <==> |page.keys| < count)
            && (!page.finished ==> DecodeCursor(NextToken(page)) == Some(page.next))
            && (!page.finished ==> |Rest(t, page.next)| < |Rest(t, cursor)|)
  {
    CollectSplits(t, cursor, count, pattern);
    var page := PageAt(t, cursor, count, pattern);
    if !page.finished {
      assert |t[page.next.bucket]| < U64;
      DecodeUndoesEncode(page.next);
    }
  }

  lemma WalkedOnce(h: Hash, t: Table, pattern: string)
    requires WellFormed(h, t)
    ensures var keys := MatchingKeys(Flatten(t), pattern);
            && (forall i, j :: 0 <= i < j < |keys| ==> keys[i] != keys[j])
            && (forall k :: k in keys <==> k in Contents(t) && Matches(k, pattern))
  {
    WalkIsContents(h, t);
    MatchingKeysDistinct(Flatten(t), pattern);
    forall k ensures HoldsKey(Flatten(t), k) <==> k in Contents(t) {
      if k in Contents(t) {
        assert Binding(k, Contents(t)[k]) in Flatten(t);
      }
      if HoldsKey(Flatten(t), k) {
        var i :| 0 <= i < |Flatten(t)| && Flatten(t)[i].key == k;
        assert Flatten(t)[i] in Flatten(t);
      }
    }
  }

  /**
   * A client that starts at "0", repeats its options, and sends back each cursor it is given until it
   * gets "0" ends up with the matching keys in walk order, each exactly once.
   */
  method ScanClient(storage: StorageEngine, opts: seq<Opt>) returns (keys: seq<string>)
    requires storage.Valid() && WordSized(storage.table.chains)
    requires Proper(opts) && CountsParse(opts) && LastCount(opts, 10) > 0
    ensures keys == MatchingKeys(Flatten(storage.table.chains), LastMatch(opts, "*"))
    ensures forall i, j :: 0 <= i < j < |keys| ==> keys[i] != keys[j]
    ensures forall k :: k in keys <==> k in storage.store && Matches(k, LastMatch(opts, "*"))
  {
    ghost var t, cursor := storage.table.chains, Cursor(0, 0);
    ghost var count, pattern := LastCount(opts, 10), LastMatch(opts, "*");
    FullScan(t, count, pattern);
    keys := [];
    var token, done := "0", false;
    assert keys + PagesFrom(t, cursor, count, pattern) == PagesFrom(t, cursor, count, pattern);
    while !done
      invariant !done ==> DecodeCursor(token) == Some(cursor)
      invariant !done ==> keys + PagesFrom(t, cursor, count, pattern) == MatchingKeys(Flatten(t), pattern)
      invariant done ==> keys == MatchingKeys(Flatten(t), pattern)
      decreases !done, |Rest(t, cursor)|
    {
      ghost var page := PageAt(t, cursor, count, pattern);
      var more;
      token, more := FetchPage(storage, token, opts, cursor);
      keys := keys + more;
      PageStep(t, cursor, count, pattern);
      done := token == "0";
      cursor := page.next;
    }
    WalkedOnce(storage.table.hash, t, pattern);
  }

  /** A client that sends `SCAN token` and nothing else collects every key of the store once. */
  method BareScanClient(storage: StorageEngine) returns (keys: seq<string>)
    requires storage.Valid() && WordSized(storage.table.chains)
    ensures forall i, j :: 0 <= i < j < |keys| ==> keys[i] != keys[j]
    ensures forall k :: k in keys <==> k in storage.store
  {
    keys := ScanClient(storage, []);
  }

  /** Sends one SCAN command and decodes its reply. */
  method FetchPage(storage: StorageEngine, token: string, opts: seq<Opt>, ghost cursor: Cursor)
    returns (next: string, keys: seq<string>)
    requires storage.Valid() && DecodeCursor(token) == Some(cursor)
    requires Proper(opts) && CountsParse(opts)
    ensures var page := PageAt(storage.table.chains, cursor, LastCount(opts, 10), LastMatch(opts, "*"));
            next == NextToken(page) && keys == page.keys
  {
    var reply := HandleScan(storage, [token] + Words(opts));
    ReplyShows(storage.table.chains, token, cursor, opts, []);
    assert [token] + Words(opts) + [] == [token] + Words(opts);
    var got := Decode(reply.value + "");
    next, keys := got.value.items[0].text, TextsOf(got.value.items[1].items);
  }

  function TextsOf(items: seq<Reply>): (r: seq<string>)
    requires forall i :: 0 <= i < |items| ==> items[i].Str?
  {
    seq(|items|, i requires 0 <= i < |items| => items[i].text)
  }
}
