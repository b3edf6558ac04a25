/** Characters, lines and decimal numerals as the C++ library reads and prints them. */
module Text {
  datatype Parsed = Number(value: int) | InvalidArgument | OutOfRange

  const U64 := 0x1_0000_0000_0000_0000
  const I64 := 0x8000_0000_0000_0000

  predicate IsSpace(c: char) {
    c == ' ' || '\t' <= c <= '\r'
  }

  predicate IsDigit(c: char) {
    '0' <= c <= '9'
  }

  predicate AllDigits(s: string) {
    forall i :: 0 <= i < |s| ==> IsDigit(s[i])
  }

  function DigitValue(c: char): nat
    requires IsDigit(c)
  {
    (c - '0') as int
  }

  /** `std::to_string` of an unsigned number. */
  function Print(n: nat): (s: string)
    ensures s != "" && AllDigits(s)
  {
    var last := ['0' + (n % 10) as char];
    if n < 10 then last else Print(n / 10) + last
  }

  /** `std::to_string` of a signed number. */
  function PrintInt(n: int): string {
    if n < 0 then "-" + Print(-n) else Print(n)
  }

  function Value(s: string): nat
    requires AllDigits(s)
  {
    if s == "" then 0 else 10 * Value(s[..|s| - 1]) + DigitValue(s[|s| - 1])
  }

  function SkipSpaces(s: string): string {
    if s != "" && IsSpace(s[0]) then SkipSpaces(s[1..]) else s
  }

  function DigitPrefix(s: string): (d: string)
    ensures AllDigits(d) && d <= s
    ensures |d| < |s| ==> !IsDigit(s[|d|])
  {
    if s != "" && IsDigit(s[0]) then [s[0]] + DigitPrefix(s[1..]) else ""
  }

  /** Spaces, an optional sign, then the longest run of digits: the value they denote. */
  function ReadSigned(s: string): Parsed {
    var t := SkipSpaces(s);
    var negative := t != "" && t[0] == '-';
    var d := DigitPrefix(if t != "" && (t[0] == '-' || t[0] == '+') then t[1..] else t);
    if d == "" then InvalidArgument else Number(if negative then 0 - Value(d) else Value(d))
  }

  /** `std::stoull`: a negative numeral wraps around. */
  function Stoull(s: string): (r: Parsed)
    ensures r.Number? ==> 0 <= r.value < U64
  {
    match ReadSigned(s)
    case Number(v) => if -U64 < v < U64 then Number(if v < 0 then v + U64 else v) else OutOfRange
    case e => e
  }

  /** `std::stoll`. */
  function Stoll(s: string): (r: Parsed)
    ensures r.Number? ==> -I64 <= r.value < I64
  {
    match ReadSigned(s)
    case Number(v) => if -I64 <= v < I64 then Number(v) else OutOfRange
    case e => e
  }

  lemma {:induction false} ValueOfPrint(n: nat)
    ensures Value(Print(n)) == n
  {
    var last := ['0' + (n % 10) as char];
    if n >= 10 {
      assert Print(n)[..|Print(n)| - 1] == Print(n / 10);
      ValueOfPrint(n / 10);
    }
  }

  lemma {:induction false} DigitPrefixAll(s: string, rest: string)
    requires AllDigits(s) && (rest != "" ==> !IsDigit(rest[0]))
    ensures DigitPrefix(s + rest) == s
  {
    if s == "" {
      assert s + rest == rest;
    } else {
      assert (s + rest)[1..] == s[1..] + rest;
      DigitPrefixAll(s[1..], rest);
    }
  }

  lemma ReadDigits(digits: string, rest: string)
    requires digits != "" && AllDigits(digits) && (rest != "" ==> !IsDigit(rest[0]))
    ensures ReadSigned(digits + rest) == Number(Value(digits))
  {
    var s := digits + rest;
    assert IsDigit(digits[0]) && s[0] == digits[0];
    assert SkipSpaces(s) == s;
    DigitPrefixAll(digits, rest);
  }

  lemma SignedReads(t: string)
    ensures var d := DigitPrefix(t);
            ReadSigned("-" + t) == if d == "" then InvalidArgument else Number(0 - Value(d))
  {
    var s := "-" + t;
    assert SkipSpaces(s) == s && s[1..] == t;
  }

  lemma ReadNegative(digits: string, rest: string)
    requires digits != "" && AllDigits(digits) && (rest != "" ==> !IsDigit(rest[0]))
    ensures ReadSigned("-" + digits + rest) == Number(0 - Value(digits))
  {
    DigitPrefixAll(digits, rest);
    Assoc("-", digits, rest);
    SignedReads(digits + rest);
  }

  /** Reading a printed number back gives the number, whatever non-digit follows. */
  lemma ReadPrinted(n: int, rest: string)
    requires rest != "" ==> !IsDigit(rest[0])
    ensures ReadSigned(PrintInt(n) + rest) == Number(n)
  {
    var m := if n < 0 then -n else n;
    ValueOfPrint(m);
    if n < 0 {
      ReadNegative(Print(m), rest);
    } else {
      ReadDigits(Print(m), rest);
    }
  }

  lemma StoullPrint(n: nat)
    requires n < U64
    ensures Stoull(Print(n)) == Number(n)
  {
    ReadPrinted(n, "");
    assert Print(n) + "" == Print(n);
  }

  lemma StollPrint(n: int)
    requires -I64 <= n < I64
    ensures Stoll(PrintInt(n)) == Number(n)
  {
    ReadPrinted(n, "");
    assert PrintInt(n) + "" == PrintInt(n);
  }

  /** Numerals are decimal, without leading zeros, and negative ones carry a minus sign. */
  lemma {:induction false} PrintIsDecimal(n: nat)
    ensures |Print(n)| > 1 ==> Print(n)[0] != '0'
    ensures Print(10 * n + 7) == (if n == 0 then "" else Print(n)) + "7"
    ensures Print(0) == "0" && Print(1205) == "1205" && PrintInt(-38) == "-38"
  {
    if n >= 10 {
      PrintIsDecimal(n / 10);
      assert Print(n)[0] == Print(n / 10)[0];
    }
    assert (10 * n + 7) / 10 == n && (10 * n + 7) % 10 == 7;
    assert Print(12) == "12" && Print(120) == "120" && Print(38) == "38";
  }

  lemma {:induction false} SpacesSkipped(spaces: string, s: string)
    requires forall i :: 0 <= i < |spaces| ==> IsSpace(spaces[i])
    ensures ReadSigned(spaces + s) == ReadSigned(s)
  {
    if spaces == "" {
      assert spaces + s == s;
    } else {
      assert (spaces + s)[1..] == spaces[1..] + s;
      SpacesSkipped(spaces[1..], s);
    }
  }

  /** White space before a numeral and text after it are passed over, and a plus sign is allowed. */
  lemma ReadTyped(spaces: string, n: nat, rest: string)
    requires forall i :: 0 <= i < |spaces| ==> IsSpace(spaces[i])
    requires rest != "" ==> !IsDigit(rest[0])
    ensures ReadSigned(spaces + (PrintInt(n) + rest)) == Number(n)
    ensures ReadSigned(spaces + ("+" + (Print(n) + rest))) == Number(n)
  {
    SpacesSkipped(spaces, PrintInt(n) + rest);
    ReadPrinted(n, rest);
    var s := "+" + (Print(n) + rest);
    SpacesSkipped(spaces, s);
    assert SkipSpaces(s) == s && s[1..] == Print(n) + rest;
    DigitPrefixAll(Print(n), rest);
    ValueOfPrint(n);
  }

  /** Text that starts with neither white space, a sign nor a digit is no number. */
  lemma NotANumber(s: string)
    requires s == "" || !(IsSpace(s[0]) || s[0] == '-' || s[0] == '+' || IsDigit(s[0]))
    ensures Stoull(s) == InvalidArgument && Stoll(s) == InvalidArgument
  {
  }

  /** The limits of the two readers: beyond 64 bits both refuse, and the unsigned one wraps negatives. */
  lemma WordLimits(n: int)
    ensures Stoull(PrintInt(n)) ==
            if n >= 0x1_0000_0000_0000_0000 || n <= -0x1_0000_0000_0000_0000 then OutOfRange
            else Number(if n < 0 then n + 0x1_0000_0000_0000_0000 else n)
    ensures Stoll(PrintInt(n)) ==
            if -0x8000_0000_0000_0000 <= n < 0x8000_0000_0000_0000 then Number(n) else OutOfRange
  {
    ReadPrinted(n, "");
    assert PrintInt(n) + "" == PrintInt(n);
  }

  lemma Assoc(a: string, b: string, c: string)
    ensures a + b + c == a + (b + c)
  {
  }

  /** Position of the first `c` in `s`, or |s|. */
  function IndexOfChar(s: string, c: char): (i: nat)
    ensures i <= |s|
    ensures i < |s| ==> s[i] == c
    ensures forall j :: 0 <= j < i ==> s[j] != c
  {
    if s == "" || s[0] == c then 0 else 1 + IndexOfChar(s[1..], c)
  }

  lemma {:induction false} IndexOfCharIn(s: string, c: char, t: string)
    requires c !in s
    ensures IndexOfChar(s + [c] + t, c) == |s|
  {
    if s == "" {
      assert s + [c] + t == [c] + t;
    } else {
      assert (s + [c] + t)[1..] == s[1..] + [c] + t;
      IndexOfCharIn(s[1..], c, t);
    }
  }

  /** The strings written one after another. */
  function Concat(parts: seq<string>): string {
    if parts == [] then "" else Concat(parts[..|parts| - 1]) + parts[|parts| - 1]
  }

  lemma {:induction false} ConcatFront(parts: seq<string>)
    requires parts != []
    ensures Concat(parts) == parts[0] + Concat(parts[1..])
  {
    var n := |parts| - 1;
    if n == 0 {
      assert parts[..0] == [] && parts[1..] == [];
      assert Concat(parts) == "" + parts[0];
    } else {
      ConcatFront(parts[..n]);
      var middle := parts[1..][..n - 1];
      assert parts[..n][1..] == middle;
      assert (parts[0] + Concat(middle)) + parts[n] == parts[0] + (Concat(middle) + parts[n]);
    }
  }
}
