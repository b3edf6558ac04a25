/** Text files as `std::getline` reads them. */
module TextLines {
  import opened Text

  /** The lines of a text; a last line need not be terminated. */
  function Lines(text: string): seq<string>
    decreases |text|
  {
    if text == "" then []
    else
      var i := IndexOfChar(text, '\n');
      [text[..i]] + if i < |text| then Lines(text[i + 1..]) else []
  }

  /** Every line written with its terminator. */
  function Unlines(lines: seq<string>): string {
    if lines == [] then "" else Unlines(lines[..|lines| - 1]) + lines[|lines| - 1] + "\n"
  }

  predicate Terminated(text: string) {
    text == "" || text[|text| - 1] == '\n'
  }

  predicate NoNewline(s: string) {
    '\n' !in s
  }

  lemma {:induction false} IndexInPrefix(a: string, b: string, c: char)
    requires c in a
    ensures IndexOfChar(a + b, c) == IndexOfChar(a, c) < |a|
  {
    if a[0] != c {
      assert (a + b)[1..] == a[1..] + b;
      IndexInPrefix(a[1..], b, c);
    }
  }

  lemma {:induction false} LinesConcat(a: string, b: string)
    requires Terminated(a)
    ensures Lines(a + b) == Lines(a) + Lines(b)
    decreases |a|
  {
    if a == "" {
      assert a + b == b;
    } else {
      IndexInPrefix(a, b, '\n');
      var i := IndexOfChar(a, '\n');
      CutPrefix(a, b, i);
      LinesConcat(a[i + 1..], b);
      LinesFirst(a, i);
      LinesFirst(a + b, i);
      AssocLines([a[..i]], Lines(a[i + 1..]), Lines(b));
    }
  }

  lemma AssocLines(a: seq<string>, b: seq<string>, c: seq<string>)
    ensures a + (b + c) == (a + b) + c
  {
  }

  lemma CutPrefix(a: string, b: string, i: nat)
    requires i < |a|
    ensures (a + b)[..i] == a[..i] && (a + b)[i + 1..] == a[i + 1..] + b
  {
  }

  lemma LinesFirst(text: string, i: nat)
    requires IndexOfChar(text, '\n') == i < |text|
    ensures Lines(text) == [text[..i]] + Lines(text[i + 1..])
  {
  }

  lemma OneLine(line: string)
    requires NoNewline(line)
    ensures Lines(line + "\n") == [line]
  {
    IndexOfCharIn(line, '\n', "");
    var text := line + ['\n'] + "";
    assert text == line + "\n" && text[..|line|] == line && text[|line| + 1..] == "";
  }

  /** A last line without its newline is read all the same. */
  lemma LastLine(text: string, line: string)
    requires Terminated(text) && NoNewline(line) && line != ""
    ensures Lines(text + line) == Lines(text) + [line]
  {
    LinesConcat(text, line);
    assert IndexOfChar(line, '\n') == |line| && line[..|line|] == line;
  }

  lemma UnlinesLast(lines: seq<string>)
    requires lines != []
    ensures Unlines(lines) == Unlines(lines[..|lines| - 1]) + (lines[|lines| - 1] + "\n")
    ensures Terminated(Unlines(lines))
  {
    Assoc(Unlines(lines[..|lines| - 1]), lines[|lines| - 1], "\n");
  }

  /** Writing lines and reading them back gives the lines. */
  lemma {:induction false} LinesOfUnlines(lines: seq<string>)
    requires forall i :: 0 <= i < |lines| ==> NoNewline(lines[i])
    ensures Terminated(Unlines(lines)) && Lines(Unlines(lines)) == lines
  {
    if lines != [] {
      var before, last := lines[..|lines| - 1], lines[|lines| - 1];
      LinesOfUnlines(before);
      UnlinesLast(lines);
      OneLine(last);
      LinesConcat(Unlines(before), last + "\n");
      assert lines == before + [last];
    }
  }

  lemma {:induction false} LinesHaveNoNewline(text: string)
    ensures forall i :: 0 <= i < |Lines(text)| ==> NoNewline(Lines(text)[i])
    decreases |text|
  {
    if text != "" {
      var i := IndexOfChar(text, '\n');
      if i < |text| {
        LinesHaveNoNewline(text[i + 1..]);
      }
    }
  }
}
