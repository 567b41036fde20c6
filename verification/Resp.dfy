// The Redis unified request protocol: the command stream as the client prints
// it, and a server's reading of it.
module Resp {
  import opened Collections
  import opened Text

  const CRLF := "\r\n"

  // An argument of the printer: a string for 's', a number of bytes for 'b'.
  datatype Arg = Str(s: string) | Size(n: nat)

  // ---------------------------------------------------------------- printing

  // The length line of a bulk string.
  function Header(n: nat): string {
    "$" + Digits(n, 10) + CRLF
  }

  function Bulk(s: string): string {
    Header(|s|) + s + CRLF
  }

  function Bulks(args: seq<string>): string {
    if args == [] then "" else Bulk(args[0]) + Bulks(args[1..])
  }

  function Count(n: nat): string {
    "*" + Digits(n, 10) + CRLF
  }

  // A whole request: an array of bulk strings.
  function Request(args: seq<string>): string {
    Count(|args|) + Bulks(args)
  }

  // What an argument adds to the stream.
  function Printed(a: Arg): string {
    match a
    case Str(s) => Bulk(s)
    case Size(n) => Header(n)
  }

  function AllPrinted(args: seq<Arg>): string {
    if args == [] then "" else AllPrinted(args[..|args| - 1]) + Printed(args[|args| - 1])
  }

  // The letters tell which arguments there are.
  predicate Fits(c: char, a: Arg) {
    if a.Str? then c == 's' else c == 'b'
  }

  // Appends the arguments one by one, each as its letter says.
  method CommandStream(fmt: string, args: seq<Arg>) returns (stream: string)
    requires |fmt| == |args| && forall i | 0 <= i < |fmt| :: Fits(fmt[i], args[i])
    ensures stream == Count(|fmt|) + AllPrinted(args)
  {
    stream := Count(|fmt|);
    var i := 0;
    ghost var head, printed := stream, "";
    while i < |fmt|
      invariant 0 <= i <= |fmt| && printed == AllPrinted(args[..i])
      invariant stream == head + printed
    {
      assert Fits(fmt[i], args[i]);
      var temp := "";
      if fmt[i] == 's' {
        temp := Bulk(args[i].s);
      } else if fmt[i] == 'b' {
        temp := Header(args[i].n);
      }
      PrintedNext(args, i);
      Joined(head, printed, temp);
      stream := stream + temp;
      printed := printed + temp;
      i := i + 1;
    }
    assert args[..i] == args;
  }

  lemma PrintedNext(args: seq<Arg>, i: nat)
    requires i < |args|
    ensures AllPrinted(args[..i + 1]) == AllPrinted(args[..i]) + Printed(args[i])
  {
    assert args[..i + 1][..i] == args[..i];
  }

  lemma Joined(a: string, b: string, c: string)
    ensures a + b + c == a + (b + c)
  {
  }

  // HSET: the stream, then the value and a line end.
  method HSet(key: string, field: string, value: string) returns (sent: string)
    ensures sent == Request(["HSET", key, field, value])
  {
    var args := [Str("HSET"), Str(key), Str(field)];
    var stream := CommandStream("sssb", args + [Size(|value|)]);
    sent := stream + value + CRLF;
    SizeLast(args, ["HSET", key, field], value);
    Framed(Count(4), AllPrinted(args + [Size(|value|)]), value);
    assert ["HSET", key, field, value] == ["HSET", key, field] + [value];
  }

  lemma Framed(a: string, b: string, c: string)
    ensures a + b + c + CRLF == a + (b + c + CRLF)
  {
  }

  // The commands without a blob.
  method Plain(words: seq<string>, fmt: string) returns (sent: string)
    requires |fmt| == |words| && forall i | 0 <= i < |fmt| :: fmt[i] == 's'
    ensures sent == Request(words)
  {
    var args := seq(|words|, i requires 0 <= i < |words| => Str(words[i]));
    sent := CommandStream(fmt, args);
    StringsOnly(args, words);
  }

  lemma {:induction false} BulksSnoc(words: seq<string>, last: string)
    ensures Bulks(words + [last]) == Bulks(words) + Bulk(last)
  {
    if words == [] {
      assert words + [last] == [last] && [last][1..] == [];
    } else {
      assert (words + [last])[1..] == words[1..] + [last];
      BulksSnoc(words[1..], last);
    }
  }

  lemma {:induction false} StringsOnly(args: seq<Arg>, words: seq<string>)
    requires |args| == |words| && forall i | 0 <= i < |args| :: args[i] == Str(words[i])
    ensures AllPrinted(args) == Bulks(words)
  {
    if args != [] {
      var n := |args| - 1;
      var first, last := words[..n], words[n];
      StringsOnly(args[..n], first);
      BulksSnoc(first, last);
      assert Printed(args[n]) == Bulk(last);
      assert AllPrinted(args) == AllPrinted(args[..n]) + Bulk(last);
      LastBehind(words);
    }
  }

  lemma SizeLast(args: seq<Arg>, words: seq<string>, value: string)
    requires |args| == |words| && forall i | 0 <= i < |args| :: args[i] == Str(words[i])
    ensures AllPrinted(args + [Size(|value|)]) + value + CRLF == Bulks(words + [value])
  {
    StringsOnly(args, words);
    BulksSnoc(words, value);
    assert (args + [Size(|value|)])[..|args|] == args;
  }

  // ----------------------------------------------------------------- reading

  predicate AllDigits(s: string) {
    s != [] && forall c | c in s :: DigitValue(c) < 10
  }

  // A line ends with the characters 13 and 10.
  predicate LineEnd(s: string, i: nat) {
    i + 1 < |s| && s[i] as int == 13 && s[i + 1] as int == 10
  }

  // The text up to the first line end, and what follows it.
  function Line(s: string): Option<(string, string)> {
    if |s| < 2 then None
    else if LineEnd(s, 0) then Some(([], s[2..]))
    else
      match Line(s[1..])
      case None => None
      case Some((l, r)) => Some(([s[0]] + l, r))
  }

  // A line with a leading mark and a number.
  function Numbered(mark: char, s: string): Option<(nat, string)> {
    if s == [] || s[0] != mark then None
    else
      match Line(s[1..])
      case None => None
      case Some((l, r)) => if AllDigits(l) then Some((Number(l, 10), r)) else None
  }

  function ReadBulk(s: string): Option<(string, string)> {
    match Numbered('$', s)
    case None => None
    case Some((n, r)) =>
      if LineEnd(r, n) then Some((r[..n], r[n + 2..])) else None
  }

  function ReadBulks(n: nat, s: string): Option<(seq<string>, string)> {
    if n == 0 then Some(([], s))
    else
      match ReadBulk(s)
      case None => None
      case Some((a, r)) =>
        match ReadBulks(n - 1, r)
        case None => None
        case Some((args, rest)) => Some(([a] + args, rest))
  }

  // Reads one request and returns what follows it.
  function Read(s: string): Option<(seq<string>, string)> {
    match Numbered('*', s)
    case None => None
    case Some((n, r)) => ReadBulks(n, r)
  }

  // -------------------------------------------------------------- round trip

  lemma {:induction false} LineBack(l: string, rest: string)
    requires forall c | c in l :: DigitValue(c) < 10
    ensures Line(l + CRLF + rest) == Some((l, rest))
  {
    var s := l + CRLF + rest;
    if l == [] {
      assert s == CRLF + rest && LineEnd(s, 0) && s[2..] == rest;
    } else {
      assert s[0] == l[0] && l[0] in l && !LineEnd(s, 0);
      assert s[1..] == l[1..] + CRLF + rest;
      LineBack(l[1..], rest);
      assert [l[0]] + l[1..] == l;
    }
  }

  lemma NumberedBack(mark: char, n: nat, rest: string)
    ensures Numbered(mark, [mark] + Digits(n, 10) + CRLF + rest) == Some((n, rest))
  {
    var s := [mark] + Digits(n, 10) + CRLF + rest;
    assert s[1..] == Digits(n, 10) + CRLF + rest;
    LineBack(Digits(n, 10), rest);
    DigitsBack(n, 10);
  }

  // An argument comes back whatever bytes it has, line ends too.
  lemma BulkBack(a: string, rest: string)
    ensures ReadBulk(Bulk(a) + rest) == Some((a, rest))
  {
    var r := a + CRLF + rest;
    assert Bulk(a) + rest == ['$'] + Digits(|a|, 10) + CRLF + r;
    NumberedBack('$', |a|, r);
    assert r[..|a|] == a && LineEnd(r, |a|) && r[|a| + 2..] == rest;
  }

  lemma {:induction false} BulksBack(args: seq<string>, rest: string)
    ensures ReadBulks(|args|, Bulks(args) + rest) == Some((args, rest))
  {
    if args != [] {
      assert Bulks(args) + rest == Bulk(args[0]) + (Bulks(args[1..]) + rest);
      BulkBack(args[0], Bulks(args[1..]) + rest);
      BulksBack(args[1..], rest);
      assert [args[0]] + args[1..] == args;
    } else {
      assert Bulks(args) + rest == rest;
    }
  }

  // A server reads exactly the arguments that were sent, and not a byte more.
  lemma RequestBack(args: seq<string>, rest: string)
    ensures Read(Request(args) + rest) == Some((args, rest))
  {
    assert Request(args) + rest == ['*'] + Digits(|args|, 10) + CRLF + (Bulks(args) + rest);
    NumberedBack('*', |args|, Bulks(args) + rest);
    BulksBack(args, rest);
  }

  // A request byte by byte.
  lemma GetSample()
    ensures Request(["GET", "k"]) == "*2\r\n$3\r\nGET\r\n$1\r\nk\r\n"
  {
    BulksThree("GET", "k", "");
    OneLine(2);
    OneLine(3);
    OneLine(1);
  }

  lemma OneLine(n: nat)
    requires n < 10
    ensures Header(n) == ['$', "0123456789"[n], 13 as char, 10 as char]
    ensures Count(n) == ['*', "0123456789"[n], 13 as char, 10 as char]
  {
    assert Digits(n, 10) == ["0123456789"[n]];
  }

  // ------------------------------------------------------------------ length

  lemma FewDigits(n: nat)
    ensures n < 100 ==> |Digits(n, 10)| <= 2
    ensures n < 0x8000_0000 ==> |Digits(n, 10)| <= 10
  {
    DigitsLength(n, 2);
    DigitsLength(n, 10);
    assert Ten(2) == 100;
    assert Ten(10) == 100 * Ten(8) && Ten(8) == 100 * Ten(6) && Ten(6) == 100 * Ten(4) && Ten(4) == 100 * Ten(2);
  }

  lemma BulkLength(s: string)
    requires |s| < 0x3F
    ensures |Bulk(s)| < 70
  {
    FewDigits(|s|);
  }

  // With keys and fields shorter than MAX_KEY_LENGTH the stream and its final zero
  // byte fit the buffer of MAX_COMMAND_LENGTH bytes.
  lemma StreamFits(command: string, key: string, field: string, n: nat)
    requires |command| <= 7 && |key| < 0x3F && |field| < 0x3F && n < 0x8000_0000
    ensures var args := [Str(command), Str(key), Str(field), Size(n)];
            |Count(4) + AllPrinted(args)| < 0xFF
  {
    var args := [Str(command), Str(key), Str(field), Size(n)];
    FewDigits(4);
    FewDigits(|command|);
    FewDigits(n);
    BulkLength(key);
    BulkLength(field);
    var strings := [Str(command), Str(key), Str(field)];
    assert args[..3] == strings && strings[..2] == [Str(command), Str(key)] && strings[..2][..1] == [Str(command)];
    assert AllPrinted([Str(command)]) == Bulk(command);
    assert AllPrinted(strings[..2]) == Bulk(command) + Bulk(key);
    assert AllPrinted(strings) == AllPrinted(strings[..2]) + Bulk(field);
    assert AllPrinted(args) == AllPrinted(strings) + Header(n);
  }

  // So do the requests without a blob.
  lemma RequestFits(command: string, key: string, field: string)
    requires |command| <= 7 && |key| < 0x3F && |field| < 0x3F
    ensures |Request([command, key])| <= |Request([command, key, field])| < 0xFF
  {
    FewDigits(2);
    FewDigits(3);
    FewDigits(|command|);
    BulkLength(key);
    BulkLength(field);
    BulksThree(command, key, field);
  }

  lemma BulksThree(a: string, b: string, c: string)
    ensures Bulks([a]) == Bulk(a) && Bulks([a, b]) == Bulk(a) + Bulk(b)
    ensures Bulks([a, b, c]) == Bulk(a) + (Bulk(b) + Bulk(c))
  {
    assert Bulks([c]) == Bulk(c) + "" && Bulks([b, c]) == Bulk(b) + Bulks([b, c][1..]);
    assert [a, b][1..] == [b] && [b, c][1..] == [c] && [a, b, c][1..] == [b, c];
    assert Bulks([a]) == Bulk(a) + "" && Bulks([b]) == Bulk(b) + "";
  }
}
