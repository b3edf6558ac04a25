/** Command lines: trimming, splitting into tokens, and joining tokens again. */
module Parser {
  import opened Entries
  import opened Text

  datatype Command = Command(name: string, args: seq<string>)

  predicate AllSpaces(s: string) {
    forall i :: 0 <= i < |s| ==> IsSpace(s[i])
  }

  /** A token: not empty, no white space. */
  predicate IsToken(s: string) {
    s != "" && forall i :: 0 <= i < |s| ==> !IsSpace(s[i])
  }

  function TokenPrefix(s: string): (w: string)
    ensures w <= s && forall i :: 0 <= i < |w| ==> !IsSpace(w[i])
    ensures |w| < |s| ==> IsSpace(s[|w|])
  {
    if s != "" && !IsSpace(s[0]) then [s[0]] + TokenPrefix(s[1..]) else ""
  }

  lemma {:induction false} SkipSpacesStops(s: string)
    ensures |SkipSpaces(s)| <= |s| && (SkipSpaces(s) != "" ==> !IsSpace(SkipSpaces(s)[0]))
  {
    if s != "" && IsSpace(s[0]) {
      SkipSpacesStops(s[1..]);
    }
  }

  /** What `stream >> token` yields until it fails. */
  function Tokens(s: string): (ts: seq<string>)
    ensures forall i :: 0 <= i < |ts| ==> IsToken(ts[i])
    decreases |s|
  {
    SkipSpacesStops(s);
    var t := SkipSpaces(s);
    if t == "" then [] else var w := TokenPrefix(t); [w] + Tokens(t[|w|..])
  }

  /** Tokens put back on one line, as the SET handler joins them. */
  function Join(ts: seq<string>): string {
    if ts == [] then "" else if |ts| == 1 then ts[0] else Join(ts[..|ts| - 1]) + " " + ts[|ts| - 1]
  }

  function CommandOf(raw: string): Option<Command> {
    var ts := Tokens(raw);
    if ts == [] then None else Some(Command(ts[0], ts[1..]))
  }

  /** A line with tokens is a command: its first token is the name, the others in order the arguments. */
  lemma CommandIsTokens(raw: string)
    ensures CommandOf(raw) == None <==> Tokens(raw) == []
    ensures CommandOf(raw).Some? ==> [CommandOf(raw).value.name] + CommandOf(raw).value.args == Tokens(raw)
  {
  }

  /** White space is what `std::isspace` takes for it. */
  lemma SpaceIs(c: char)
    ensures IsSpace(c) <==> c == ' ' || c == '\t' || c == '\n' || c == '\U{0B}' || c == '\U{0C}' || c == '\r'
  {
  }

  // ----- Tokens of parts -----

  lemma {:induction false} SkipSpacesConcat(a: string, b: string)
    ensures SkipSpaces(a + b) == if SkipSpaces(a) == "" then SkipSpaces(b) else SkipSpaces(a) + b
  {
    if a == "" {
      assert a + b == b;
    } else if IsSpace(a[0]) {
      assert (a + b)[1..] == a[1..] + b;
      SkipSpacesConcat(a[1..], b);
    }
  }

  lemma {:induction false} TokenPrefixConcat(a: string, b: string)
    requires b != "" ==> IsSpace(b[0])
    ensures TokenPrefix(a + b) == TokenPrefix(a)
  {
    if a == "" {
      assert a + b == b;
    } else if !IsSpace(a[0]) {
      assert (a + b)[1..] == a[1..] + b;
      TokenPrefixConcat(a[1..], b);
    }
  }

  /** Splitting at white space splits the tokens. */
  lemma {:induction false} TokensConcat(a: string, b: string)
    requires b != "" ==> IsSpace(b[0])
    ensures Tokens(a + b) == Tokens(a) + Tokens(b)
    decreases |a|
  {
    SkipSpacesStops(a);
    SkipSpacesConcat(a, b);
    var t := SkipSpaces(a);
    if t != "" {
      TokenPrefixConcat(t, b);
      var w := TokenPrefix(t);
      assert (t + b)[|w|..] == t[|w|..] + b;
      TokensConcat(t[|w|..], b);
    }
  }

  lemma {:induction false} SpacesHaveNoTokens(s: string)
    requires AllSpaces(s)
    ensures SkipSpaces(s) == "" && Tokens(s) == []
  {
    if s != "" {
      SpacesHaveNoTokens(s[1..]);
    }
  }

  lemma TokensOfToken(w: string)
    requires IsToken(w)
    ensures Tokens(w) == [w] && Tokens(" " + w) == [w]
  {
    assert SkipSpaces(w) == w;
    assert (" " + w)[1..] == w && SkipSpaces(" " + w) == w;
    assert TokenPrefix(w) == w;
    assert Tokens(w[|w|..]) == [];
  }

  /** Tokens joined on a line are read back as they were. */
  lemma {:induction false} TokensOfJoin(ts: seq<string>)
    requires forall i :: 0 <= i < |ts| ==> IsToken(ts[i])
    ensures Tokens(Join(ts)) == ts
  {
    if |ts| == 1 {
      TokensOfToken(ts[0]);
    } else if |ts| > 1 {
      var before, w := ts[..|ts| - 1], ts[|ts| - 1];
      TokensOfJoin(before);
      TokensOfToken(w);
      TokensConcat(Join(before), " " + w);
      assert Join(ts) == Join(before) + (" " + w);
    }
  }

  lemma JoinLast(a: string, b: string, w: string)
    ensures a + " " + b + " " + w == a + " " + (b + " " + w)
  {
  }

  /** Exactly one space stands between the tokens of a joined line. */
  lemma {:induction false} JoinConcat(a: seq<string>, b: seq<string>)
    requires a != [] && b != []
    ensures Join(a + b) == Join(a) + " " + Join(b)
    ensures Join([a[0]]) == a[0]
  {
    var n, all := |b| - 1, a + b;
    assert all[..|all| - 1] == a + b[..n] && all[|all| - 1] == b[n];
    if n == 0 {
      assert a + b[..0] == a;
    } else {
      JoinConcat(a, b[..n]);
      JoinLast(Join(a), Join(b[..n]), b[n]);
    }
  }

  /** Trimming white space from both ends changes no token. */
  lemma TokensOfTrimmed(s: string, start: nat, end: nat)
    requires start <= end <= |s| && AllSpaces(s[..start]) && AllSpaces(s[end..])
    ensures Tokens(s[start..end]) == Tokens(s)
  {
    var a, t, b := s[..start], s[start..end], s[end..];
    assert s == a + (t + b);
    SpacesHaveNoTokens(a);
    SpacesHaveNoTokens(b);
    SkipSpacesConcat(a, t + b);
    assert Tokens(s) == Tokens(t + b);
    TokensConcat(t, b);
  }

  // ----- The operations -----

  method Trim(s: string) returns (t: string, ghost start: nat, ghost end: nat)
    ensures start <= end <= |s| && t == s[start..end]
    ensures AllSpaces(s[..start]) && AllSpaces(s[end..])
    ensures t != "" ==> !IsSpace(t[0]) && !IsSpace(t[|t| - 1])
  {
    var from := 0;
    while from < |s| && IsSpace(s[from])
      invariant from <= |s| && AllSpaces(s[..from])
    {
      from := from + 1;
    }
    var to := |s|;
    while to > from && IsSpace(s[to - 1])
      invariant from <= to <= |s| && AllSpaces(s[to..])
    {
      to := to - 1;
    }
    start, end := from, to;
    t := s[from..to];
  }

  method Tokenize(line: string) returns (tokens: seq<string>)
    ensures tokens == Tokens(line)
  {
    tokens := [];
    var rest := line;
    while true
      invariant Tokens(line) == tokens + Tokens(rest)
      decreases |rest|
    {
      SkipSpacesStops(rest);
      var t := SkipSpaces(rest);
      if t == "" {
        break;
      }
      var token := TokenPrefix(t);
      assert Tokens(rest) == [token] + Tokens(t[|token|..]);
      tokens := tokens + [token];
      rest := t[|token|..];
    }
  }

  method ParseLine(raw: string) returns (command: Option<Command>)
    ensures command == CommandOf(raw)
    ensures command == None <==> Tokens(raw) == []
    ensures command.Some? ==> [command.value.name] + command.value.args == Tokens(raw)
    ensures command.Some? ==> IsToken(command.value.name)
    ensures command.Some? ==> forall i :: 0 <= i < |command.value.args| ==> IsToken(command.value.args[i])
  {
    var line, start, end := Trim(raw);
    TokensOfTrimmed(raw, start, end);
    if line == "" {
      SpacesHaveNoTokens(line);
      return None;
    }
    var tokens := Tokenize(line);
    if tokens == [] {
      return None;
    }
    return Some(Command(tokens[0], tokens[1..]));
  }
}
