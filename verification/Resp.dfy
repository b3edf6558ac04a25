/** Replies in the Redis serialization protocol, and a decoder for arrays and bulk strings. */
module Resp {
  import opened Entries
  import opened Text

  const CRLF := "\r\n"

  function Bulk(value: string): string {
    "$" + Print(|value|) + CRLF + value
  }

  function NullBulk(): string {
    "$-1"
  }

  function Err(message: string): string {
    "-ERR " + message
  }

  function Integer(n: int): string {
    ":" + PrintInt(n)
  }

  function ArrayHead(n: nat): string {
    "*" + Print(n) + CRLF
  }

  /** An array element is a bulk string or the null bulk string, followed by CR LF. */
  function Element(value: Option<string>): string {
    (if value.Some? then Bulk(value.value) else NullBulk()) + CRLF
  }

  function Parts(values: seq<Option<string>>): (r: seq<string>)
    ensures |r| == |values| && forall i :: 0 <= i < |values| ==> r[i] == Element(values[i])
  {
    seq(|values|, i requires 0 <= i < |values| => Element(values[i]))
  }

  function Elements(values: seq<Option<string>>): string {
    Concat(Parts(values))
  }

  // ----- Decoding -----

  datatype Reply = Str(text: string) | Null | Array(items: seq<Reply>)

  datatype Decoded<T> = Got(value: T, rest: string) | Malformed

  /** A decimal length, or -1, up to CR LF. */
  function ReadLength(s: string): (r: Decoded<int>)
    ensures r.Got? ==> |r.rest| < |s| && r.value >= -1
  {
    var i := IndexOfChar(s, '\r');
    if i + 1 >= |s| || s[i + 1] != '\n' then Malformed
    else if s[..i] == "-1" then Got(-1, s[i + 2..])
    else if s[..i] != "" && AllDigits(s[..i]) then Got(Value(s[..i]), s[i + 2..])
    else Malformed
  }

  function Decode(s: string): (r: Decoded<Reply>)
    ensures r.Got? ==> |r.rest| < |s|
    decreases |s|, 0
  {
    if s == "" then Malformed
    else if s[0] == '$' then
      match ReadLength(s[1..])
      case Malformed => Malformed
      case Got(n, rest) =>
        if n == -1 then Got(Null, rest)
        else if n + 2 <= |rest| && rest[n..n + 2] == CRLF then Got(Str(rest[..n]), rest[n + 2..])
        else Malformed
    else if s[0] == '*' then
      match ReadLength(s[1..])
      case Malformed => Malformed
      case Got(n, rest) =>
        if n == -1 then Got(Null, rest)
        else match DecodeItems(n, rest)
             case Malformed => Malformed
             case Got(items, rest) => Got(Array(items), rest)
    else Malformed
  }

  function DecodeItems(n: nat, s: string): (r: Decoded<seq<Reply>>)
    ensures r.Got? ==> |r.rest| <= |s| && |r.value| == n
    decreases |s|, 1
  {
    if n == 0 then Got([], s)
    else match Decode(s)
         case Malformed => Malformed
         case Got(v, rest) =>
           match DecodeItems(n - 1, rest)
           case Malformed => Malformed
           case Got(vs, rest) => Got([v] + vs, rest)
  }

  // ----- Round trips -----

  /** Whatever follows `text`, the decoder reads `reply` from it and leaves what follows. */
  ghost predicate Encodes(text: string, reply: Reply) {
    forall tail {:trigger Decode(text + tail)} :: Decode(text + tail) == Got(reply, tail)
  }

  lemma ReadPrintedLength(n: nat, tail: string)
    ensures ReadLength(Print(n) + CRLF + tail) == Got(n, tail)
  {
    var digits := Print(n);
    assert forall i :: 0 <= i < |digits| ==> IsDigit(digits[i]);
    assert '\r' !in digits;
    var s := digits + ['\r'] + ("\n" + tail);
    assert s == digits + CRLF + tail;
    IndexOfCharIn(digits, '\r', "\n" + tail);
    assert s[..|digits|] == digits && s[|digits| + 2..] == tail;
    assert digits[0] != '-';
    ValueOfPrint(n);
  }

  lemma BulkTail(digits: string, v: string, tail: string)
    ensures ("$" + digits + CRLF + v + CRLF + tail)[1..] == digits + CRLF + (v + CRLF + tail)
  {
  }

  lemma PayloadSlices(v: string, tail: string)
    ensures var rest := v + CRLF + tail;
            rest[|v|..|v| + 2] == CRLF && rest[..|v|] == v && rest[|v| + 2..] == tail
  {
  }

  lemma BulkStep(s: string, n: nat, rest: string)
    requires s != "" && s[0] == '$' && ReadLength(s[1..]) == Got(n, rest) && n + 2 <= |rest| && rest[n..n + 2] == CRLF
    ensures Decode(s) == Got(Str(rest[..n]), rest[n + 2..])
  {
  }

  lemma DecodeBulk(v: string, tail: string)
    ensures Decode(Element(Some(v)) + tail) == Got(Str(v), tail)
  {
    var s, rest := Element(Some(v)) + tail, v + CRLF + tail;
    BulkTail(Print(|v|), v, tail);
    ReadPrintedLength(|v|, rest);
    PayloadSlices(v, tail);
    BulkStep(s, |v|, rest);
  }

  lemma DecodeNull(tail: string)
    ensures Decode(Element(None) + tail) == Got(Null, tail)
  {
    var s := Element(None) + tail;
    assert s[1..] == "-1" + ['\r'] + ("\n" + tail);
    IndexOfCharIn("-1", '\r', "\n" + tail);
    assert s[1..][..2] == "-1" && s[1..][4..] == tail;
  }

  function AsReply(v: Option<string>): Reply {
    if v.Some? then Str(v.value) else Null
  }

  /** Whatever bytes the payload holds, CR LF included, an element stands for its value. */
  lemma ElementEncodes(v: Option<string>)
    ensures Encodes(Element(v), AsReply(v))
  {
    forall tail ensures Decode(Element(v) + tail) == Got(AsReply(v), tail) {
      if v.Some? {
        DecodeBulk(v.value, tail);
      } else {
        DecodeNull(tail);
      }
    }
  }

  ghost predicate EncodeAll(parts: seq<string>, replies: seq<Reply>) {
    && |parts| == |replies|
    && forall i {:trigger Encodes(parts[i], replies[i])} :: 0 <= i < |parts| ==> Encodes(parts[i], replies[i])
  }

  lemma ItemStep(n: nat, s: string, v: Reply, rest: string, vs: seq<Reply>, tail: string)
    requires n > 0 && Decode(s) == Got(v, rest) && DecodeItems(n - 1, rest) == Got(vs, tail)
    ensures DecodeItems(n, s) == Got([v] + vs, tail)
  {
  }

  lemma EncodedPartReads(text: string, reply: Reply, tail: string)
    requires Encodes(text, reply)
    ensures Decode(text + tail) == Got(reply, tail)
  {
  }

  lemma EncodeAllTail(parts: seq<string>, replies: seq<Reply>)
    requires EncodeAll(parts, replies) && parts != []
    ensures Encodes(parts[0], replies[0]) && EncodeAll(parts[1..], replies[1..])
  {
    forall i | 0 <= i < |parts[1..]| ensures Encodes(parts[1..][i], replies[1..][i]) {
      assert Encodes(parts[i + 1], replies[i + 1]);
    }
  }

  lemma {:induction false} DecodeParts(parts: seq<string>, replies: seq<Reply>, tail: string)
    requires EncodeAll(parts, replies)
    ensures DecodeItems(|parts|, Concat(parts) + tail) == Got(replies, tail)
  {
    if parts == [] {
      assert Concat(parts) + tail == tail;
    } else {
      ConcatFront(parts);
      var later := Concat(parts[1..]) + tail;
      assert Concat(parts) + tail == parts[0] + later;
      EncodeAllTail(parts, replies);
      DecodeParts(parts[1..], replies[1..], tail);
      EncodedPartReads(parts[0], replies[0], later);
      ItemStep(|parts|, parts[0] + later, replies[0], later, replies[1..], tail);
      assert replies == [replies[0]] + replies[1..];
    }
  }

  lemma ArrayHeadReads(n: nat, tail: string)
    ensures var s := ArrayHead(n) + tail; s[0] == '*' && ReadLength(s[1..]) == Got(n, tail)
  {
    assert (ArrayHead(n) + tail)[1..] == Print(n) + CRLF + tail;
    ReadPrintedLength(n, tail);
  }

  lemma ArrayStep(s: string, n: nat, rest: string, items: seq<Reply>, tail: string)
    requires s != "" && s[0] == '*' && ReadLength(s[1..]) == Got(n, rest) && DecodeItems(n, rest) == Got(items, tail)
    ensures Decode(s) == Got(Array(items), tail)
  {
  }

  /** A head and that many encoded parts stand for the array of what the parts stand for. */
  lemma ArrayEncodes(parts: seq<string>, replies: seq<Reply>)
    requires EncodeAll(parts, replies)
    ensures Encodes(ArrayHead(|parts|) + Concat(parts), Array(replies))
  {
    var head, body := ArrayHead(|parts|), Concat(parts);
    forall tail ensures Decode((head + body) + tail) == Got(Array(replies), tail) {
      ArrayHeadReads(|parts|, body + tail);
      DecodeParts(parts, replies, tail);
      ArrayStep(head + (body + tail), |parts|, body + tail, replies, tail);
      assert (head + body) + tail == head + (body + tail);
    }
  }

  function AsReplies(vs: seq<Option<string>>): (r: seq<Reply>)
    ensures |r| == |vs| && forall i :: 0 <= i < |vs| ==> r[i] == AsReply(vs[i])
  {
    seq(|vs|, i requires 0 <= i < |vs| => AsReply(vs[i]))
  }

  lemma ElementsEncode(vs: seq<Option<string>>)
    ensures EncodeAll(Parts(vs), AsReplies(vs))
    ensures Encodes(ArrayHead(|vs|) + Elements(vs), Array(AsReplies(vs)))
  {
    forall i | 0 <= i < |vs| ensures Encodes(Parts(vs)[i], AsReplies(vs)[i]) {
      ElementEncodes(vs[i]);
    }
    ArrayEncodes(Parts(vs), AsReplies(vs));
  }
}
