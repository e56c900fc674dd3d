/**
 The Redis wire format: the client's command printer and reply reader, and the reader of the server side that
 the repository's tests use.  Everything is bytes; arguments may contain any byte, CR and LF included.
 */
module Resp {
  import opened Prelude
  import Text

  type byte = b: int | 0 <= b < 256

  const LF: byte := 10
  const CR: byte := 13
  const DOLLAR: byte := 36
  const STAR: byte := 42
  const PLUS: byte := 43
  const MINUS: byte := 45
  const ZERO: byte := 48
  const COLON: byte := 58
  const CRLF: seq<byte> := [CR, LF]

  const MAX_INT := 0x7fff_ffff_ffff_ffff
  const MIN_INT := -0x8000_0000_0000_0000

  // ----- Printing.

  function Decimal(n: nat): seq<byte> {
    if n < 10 then [ZERO + n] else Decimal(n / 10) + [ZERO + n % 10]
  }

  function Bulk(part: seq<byte>): seq<byte> {
    [DOLLAR] + Decimal(|part|) + CRLF + part + CRLF
  }

  function Bulks(parts: seq<seq<byte>>): seq<byte> {
    if parts == [] then [] else Bulks(parts[..|parts| - 1]) + Bulk(parts[|parts| - 1])
  }

  function Command(parts: seq<seq<byte>>): seq<byte> {
    [STAR] + Decimal(|parts|) + CRLF + Bulks(parts)
  }

  function Commands(commands: seq<seq<seq<byte>>>): seq<byte> {
    if commands == [] then [] else Commands(commands[..|commands| - 1]) + Command(commands[|commands| - 1])
  }

  // ----- Reading lines and numbers.

  /** The bytes through the first LF, and what follows; None at the end of the stream. */
  function ReadLine(stream: seq<byte>): (r: Option<(seq<byte>, seq<byte>)>)
    ensures r.Some? ==> |r.value.0| > 0 && |r.value.1| < |stream|
  {
    if stream == [] then None
    else if stream[0] == LF then Some(([LF], stream[1..]))
    else
      match ReadLine(stream[1..])
      case None => None
      case Some((line, rest)) => Some(([stream[0]] + line, rest))
  }

  predicate IsSpace(b: byte) {
    9 <= b <= 13 || b == 32
  }

  function TrimSpace(s: seq<byte>): seq<byte> {
    Text.TrimRight(Text.TrimLeft(s, IsSpace), IsSpace)
  }

  predicate IsDigit(b: byte) {
    ZERO <= b <= ZERO + 9
  }

  function Digits(s: seq<byte>): Option<nat> {
    if s == [] || !IsDigit(s[|s| - 1]) then None
    else if |s| == 1 then Some(s[0] - ZERO)
    else
      match Digits(s[..|s| - 1])
      case None => None
      case Some(n) => Some(10 * n + s[|s| - 1] - ZERO)
  }

  /** A decimal number with an optional sign that fits into 64 bits. */
  function Atoi(s: seq<byte>): Option<int> {
    if s == [] then None
    else
      var signed := s[0] == MINUS || s[0] == PLUS;
      match Digits(if signed then s[1..] else s)
      case None => None
      case Some(n) =>
        var v: int := if s[0] == MINUS then -(n as int) else n;
        if MIN_INT <= v <= MAX_INT then Some(v) else None
  }

  // ----- The server's reader of commands.

  function ReadHeader(stream: seq<byte>, mark: byte): Option<(nat, seq<byte>)> {
    match ReadLine(stream)
    case None => None
    case Some((line, rest)) =>
      if |line| < 3 || line[0] != mark then None
      else
        match Atoi(TrimSpace(line[1..]))
        case None => None
        case Some(n) => if n < 0 then None else Some((n, rest))
  }

  function ReadArguments(stream: seq<byte>, count: nat): Option<(seq<seq<byte>>, seq<byte>)>
    decreases count
  {
    if count == 0 then Some(([], stream))
    else
      match ReadHeader(stream, DOLLAR)
      case None => None
      case Some((size, rest)) =>
        if |rest| < size + 2 then None
        else
          match ReadArguments(rest[size + 2..], count - 1)
          case None => None
          case Some((more, last)) => Some(([rest[..size]] + more, last))
  }

  function ReadCommand(stream: seq<byte>): Option<(seq<seq<byte>>, seq<byte>)> {
    match ReadHeader(stream, STAR)
    case None => None
    case Some((count, rest)) => ReadArguments(rest, count)
  }

  function ReadCommands(stream: seq<byte>, count: nat): Option<(seq<seq<seq<byte>>>, seq<byte>)>
    decreases count
  {
    if count == 0 then Some(([], stream))
    else
      match ReadCommand(stream)
      case None => None
      case Some((command, rest)) =>
        match ReadCommands(rest, count - 1)
        case None => None
        case Some((more, last)) => Some(([command] + more, last))
  }

  // ----- Replies.

  datatype Reply = Integer(value: int) | Status(text: seq<byte>) | Failure(text: seq<byte>)

  function PrintInteger(v: int): seq<byte> {
    if v < 0 then [MINUS] + Decimal(-v) else Decimal(v)
  }

  /** What the server writes for a reply. */
  function PrintReply(r: Reply): seq<byte> {
    match r
    case Integer(v) => [COLON] + PrintInteger(v) + CRLF
    case Status(text) => [PLUS] + text + CRLF
    case Failure(text) => [MINUS] + text + CRLF
  }

  datatype Outcome = Value(value: int) | Error(message: seq<byte>) | Malformed | Disconnected

  predicate IsLineEnd(b: byte) {
    b == CR || b == LF
  }

  /** The client's reader: one line is one reply. */
  function ReadReply(stream: seq<byte>): (Outcome, seq<byte>) {
    match ReadLine(stream)
    case None => (Disconnected, [])
    case Some((raw, rest)) =>
      var line := Text.TrimRight(raw, IsLineEnd);
      if line == [] then (Malformed, rest)
      else if line[0] == MINUS then (Error(line[1..]), rest)
      else if line[0] == COLON then
        match Atoi(line[1..])
        case None => (Malformed, rest)
        case Some(v) => (Value(v), rest)
      else if line[0] == PLUS then (Value(0), rest)
      else (Malformed, rest)
  }

  lemma {:induction false} BulksSnoc(parts: seq<seq<byte>>, p: nat)
    requires p < |parts|
    ensures Bulks(parts[..p + 1]) == Bulks(parts[..p]) + Bulk(parts[p])
  {
    assert parts[..p + 1][..p] == parts[..p];
  }

  lemma {:induction false} CommandsSnoc(commands: seq<seq<seq<byte>>>, c: nat)
    requires c < |commands|
    ensures Commands(commands[..c + 1]) == Commands(commands[..c]) + Command(commands[c])
  {
    assert commands[..c + 1][..c] == commands[..c];
  }

  lemma {:induction false} Regroup(a: seq<byte>, b: seq<byte>, c: seq<byte>, d: seq<byte>)
    ensures a + (b + c) + d == a + (b + (c + d))
    ensures a + b + c == a + (b + c)
  {
  }

  /** A connection as the client sees it: what it wrote, and what it has not yet read. */
  class RedisConn {
    var written: seq<byte>
    var unread: seq<byte>

    /** Writes all commands with a single write of one buffer. */
    method Send(commands: seq<seq<seq<byte>>>)
      modifies this`written
      ensures written == old(written) + Commands(commands)
    {
      hide Decimal;
      var buffer: seq<byte> := [];
      for c := 0 to |commands|
        invariant buffer == Commands(commands[..c]) && written == old(written)
      {
        var parts := commands[c];
        ghost var header := [STAR] + Decimal(|parts|) + CRLF;
        buffer := buffer + ([STAR] + Decimal(|parts|) + CRLF);
        for p := 0 to |parts|
          invariant buffer == Commands(commands[..c]) + (header + Bulks(parts[..p])) && written == old(written)
        {
          buffer := buffer + ([DOLLAR] + Decimal(|parts[p]|) + CRLF + parts[p] + CRLF);
          BulksSnoc(parts, p);
          Regroup(Commands(commands[..c]), header, Bulks(parts[..p]), Bulk(parts[p]));
        }
        assert parts[..|parts|] == parts;
        CommandsSnoc(commands, c);
      }
      assert commands[..|commands|] == commands;
      written := written + buffer;
    }

    method Receive() returns (outcome: Outcome)
      modifies this`unread
      ensures (outcome, unread) == ReadReply(old(unread))
    {
      var read := ReadLine(unread);
      if read.None? {
        unread := [];
        return Disconnected;
      }
      var line := Text.TrimRight(read.value.0, IsLineEnd);
      unread := read.value.1;
      if line == [] {
        return Malformed;
      }
      if line[0] == MINUS {
        return Error(line[1..]);
      }
      if line[0] == COLON {
        var v := Atoi(line[1..]);
        return if v.Some? then Value(v.value) else Malformed;
      }
      return if line[0] == PLUS then Value(0) else Malformed;
    }
  }

  // ----- Round trips.

  lemma {:induction false} DecimalReads(n: nat)
    ensures Digits(Decimal(n)) == Some(n)
    ensures forall b | b in Decimal(n) :: IsDigit(b)
    ensures |Decimal(n)| > 0
  {
    if n >= 10 {
      DecimalReads(n / 10);
      var d := Decimal(n);
      assert d[..|d| - 1] == Decimal(n / 10);
    }
  }

  lemma {:induction false} AtoiDecimal(n: nat)
    requires n <= MAX_INT
    ensures Atoi(Decimal(n)) == Some(n)
  {
    DecimalReads(n);
    assert Decimal(n)[0] in Decimal(n);
  }

  lemma {:induction false} ReadLineStops(line: seq<byte>, rest: seq<byte>)
    requires LF !in line
    ensures ReadLine(line + [LF] + rest) == Some((line + [LF], rest))
  {
    var stream := line + [LF] + rest;
    if line == [] {
      assert stream[0] == LF && stream[1..] == rest && line + [LF] == [LF];
    } else {
      assert stream[1..] == line[1..] + [LF] + rest;
      ReadLineStops(line[1..], rest);
      assert [line[0]] + (line[1..] + [LF]) == line + [LF];
    }
  }

  lemma {:induction false} TrimDecimal(n: nat)
    ensures TrimSpace(Decimal(n) + CRLF) == Decimal(n)
  {
    DecimalReads(n);
    var d := Decimal(n);
    assert d[0] in d && d[|d| - 1] in d;
    assert Text.TrimLeft(d + CRLF, IsSpace) == d + CRLF;
    Text.TrimRightDrops(d, CRLF, IsSpace);
  }

  lemma {:induction false} HeaderReads(mark: byte, n: nat, rest: seq<byte>)
    requires n <= MAX_INT && mark != LF
    ensures ReadHeader([mark] + Decimal(n) + CRLF + rest, mark) == Some((n, rest))
  {
    DecimalReads(n);
    AtoiDecimal(n);
    TrimDecimal(n);
    var line := [mark] + Decimal(n) + [CR];
    assert [mark] + Decimal(n) + CRLF + rest == line + [LF] + rest;
    ReadLineStops(line, rest);
    assert (line + [LF])[1..] == Decimal(n) + CRLF;
  }

  lemma {:induction false} BulksHead(parts: seq<seq<byte>>)
    requires parts != []
    ensures Bulks(parts) == Bulk(parts[0]) + Bulks(parts[1..])
  {
    var n := |parts| - 1;
    if n == 0 {
      assert Bulks(parts[..0]) == [] && parts[1..] == [];
    } else {
      hide Bulk;
      BulksHead(parts[..n]);
      assert parts[..n][1..] == parts[1..][..n - 1];
      assert parts[1..][n - 1] == parts[n];
      Regroup(Bulk(parts[0]), Bulks(parts[1..][..n - 1]), Bulk(parts[n]), []);
    }
  }

  lemma {:induction false} CommandsHead(commands: seq<seq<seq<byte>>>)
    requires commands != []
    ensures Commands(commands) == Command(commands[0]) + Commands(commands[1..])
  {
    var n := |commands| - 1;
    if n == 0 {
      assert Commands(commands[..0]) == [] && commands[1..] == [];
    } else {
      hide Command;
      CommandsHead(commands[..n]);
      assert commands[..n][1..] == commands[1..][..n - 1];
      assert commands[1..][n - 1] == commands[n];
      Regroup(Command(commands[0]), Commands(commands[1..][..n - 1]), Command(commands[n]), []);
    }
  }

  /** Lengths fit into the machine's signed 64-bit int, as every length of the source language does. */
  ghost predicate Fits(parts: seq<seq<byte>>) {
    |parts| <= MAX_INT && forall part | part in parts :: |part| <= MAX_INT
  }

  lemma {:induction false} BulkReads(part: seq<byte>, after: seq<byte>)
    requires |part| <= MAX_INT
    ensures ReadHeader(Bulk(part) + after, DOLLAR) == Some((|part|, part + CRLF + after))
  {
    hide ReadHeader, Decimal;
    assert Bulk(part) + after == [DOLLAR] + Decimal(|part|) + CRLF + (part + CRLF + after);
    HeaderReads(DOLLAR, |part|, part + CRLF + after);
  }

  /** A printed argument in front of a stream that reads as n arguments. */
  lemma {:induction false} ReadArgumentMore(part: seq<byte>, after: seq<byte>, more: seq<seq<byte>>, rest: seq<byte>,
      n: nat)
    requires |part| <= MAX_INT && ReadArguments(after, n) == Some((more, rest))
    ensures ReadArguments(Bulk(part) + after, n + 1) == Some(([part] + more, rest))
  {
    hide ReadHeader, Bulk;
    BulkReads(part, after);
    var tail := part + CRLF + after;
    assert tail[|part| + 2..] == after && tail[..|part|] == part;
  }

  lemma {:induction false} ArgumentsRead(parts: seq<seq<byte>>, rest: seq<byte>)
    requires Fits(parts)
    ensures ReadArguments(Bulks(parts) + rest, |parts|) == Some((parts, rest))
  {
    if parts == [] {
      assert Bulks(parts) + rest == rest;
    } else {
      hide ReadArguments, Bulks, Bulk;
      var head, tail := Bulk(parts[0]), Bulks(parts[1..]);
      BulksHead(parts);
      Regroup(head, tail, rest, []);
      assert parts == [parts[0]] + parts[1..];
      ArgumentsRead(parts[1..], rest);
      ReadArgumentMore(parts[0], tail + rest, parts[1..], rest, |parts| - 1);
    }
  }

  lemma {:induction false} CommandReads(parts: seq<seq<byte>>, rest: seq<byte>)
    requires Fits(parts)
    ensures ReadCommand(Command(parts) + rest) == Some((parts, rest))
  {
    assert Command(parts) + rest == [STAR] + Decimal(|parts|) + CRLF + (Bulks(parts) + rest);
    HeaderReads(STAR, |parts|, Bulks(parts) + rest);
    ArgumentsRead(parts, rest);
  }

  lemma {:induction false} ReadOneMore(stream: seq<byte>, after: seq<byte>, rest: seq<byte>, command: seq<seq<byte>>,
                                       more: seq<seq<seq<byte>>>, n: nat)
    requires ReadCommand(stream) == Some((command, after)) && ReadCommands(after, n) == Some((more, rest))
    ensures ReadCommands(stream, n + 1) == Some(([command] + more, rest))
  {
    hide ReadCommand;
  }

  /** Reading back what was sent gives exactly the commands that were sent, and leaves exactly what follows them. */
  lemma {:induction false} CommandsRoundTrip(commands: seq<seq<seq<byte>>>, rest: seq<byte>)
    requires forall c | c in commands :: Fits(c)
    ensures ReadCommands(Commands(commands) + rest, |commands|) == Some((commands, rest))
  {
    if commands == [] {
      assert Commands(commands) + rest == rest;
    } else {
      hide ReadCommand, ReadCommands, Command, Commands;
      CommandsHead(commands);
      var head, tail := Command(commands[0]), Commands(commands[1..]);
      var after := tail + rest;
      assert Commands(commands) == head + tail;
      assert (head + tail) + rest == head + after;
      CommandReads(commands[0], after);
      CommandsRoundTrip(commands[1..], rest);
      ReadOneMore(Commands(commands) + rest, after, rest, commands[0], commands[1..], |commands| - 1);
      assert [commands[0]] + commands[1..] == commands;
    }
  }

  function Meaning(r: Reply): Outcome {
    match r
    case Integer(v) => Value(v)
    case Status(_) => Value(0)
    case Failure(text) => Error(text)
  }

  ghost predicate Printable(r: Reply) {
    match r
    case Integer(v) => MIN_INT <= v <= MAX_INT
    case Status(text) => CR !in text && LF !in text
    case Failure(text) => CR !in text && LF !in text
  }

  lemma {:induction false} LineReads(mark: byte, text: seq<byte>, rest: seq<byte>)
    requires mark != CR && mark != LF && CR !in text && LF !in text
    ensures ReadLine([mark] + text + CRLF + rest) == Some(([mark] + text + CRLF, rest))
    ensures Text.TrimRight([mark] + text + CRLF, IsLineEnd) == [mark] + text
  {
    var line := [mark] + text + [CR];
    assert [mark] + text + CRLF + rest == line + [LF] + rest;
    assert line + [LF] == [mark] + text + CRLF;
    ReadLineStops(line, rest);
    Text.TrimRightDrops([mark] + text, CRLF, IsLineEnd);
  }

  /**
   Each reply is read back with its meaning, and reading it consumes exactly its own bytes, also when it is an error.
   */
  lemma {:induction false} ReplyRoundTrip(r: Reply, rest: seq<byte>)
    requires Printable(r)
    ensures ReadReply(PrintReply(r) + rest) == (Meaning(r), rest)
  {
    match r
    case Integer(v) =>
      IntegerReads(v);
      var text := PrintInteger(v);
      hide PrintInteger, Atoi;
      LineReads(COLON, text, rest);
      assert ([COLON] + text)[1..] == text;
    case Status(text) =>
      LineReads(PLUS, text, rest);
    case Failure(text) =>
      LineReads(MINUS, text, rest);
      assert ([MINUS] + text)[1..] == text;
  }

  lemma {:induction false} IntegerReads(v: int)
    requires MIN_INT <= v <= MAX_INT
    ensures Atoi(PrintInteger(v)) == Some(v)
    ensures CR !in PrintInteger(v) && LF !in PrintInteger(v)
  {
    var n: nat := if v < 0 then -v else v;
    DecimalReads(n);
    assert Decimal(n)[0] in Decimal(n);
    if v < 0 {
      assert PrintInteger(v)[1..] == Decimal(n);
    }
  }

  // ----- The format itself.

  function Code(c: char): byte {
    if c as int < 128 then c as int else 63
  }

  function Ascii(text: string): seq<byte> {
    seq(|text|, i requires 0 <= i < |text| => Code(text[i]))
  }

  lemma {:induction false} OneDigit(n: nat)
    requires n < 10
    ensures Decimal(n) == [ZERO + n]
  {
  }

  lemma {:induction false} WireOfTwo(a: seq<byte>, b: seq<byte>)
    ensures Command([a, b]) == [STAR] + Decimal(2) + CRLF + (Bulk(a) + Bulk(b))
  {
    var none: seq<seq<byte>> := [];
    assert [a, b][..1] == [a] && [a][..0] == none;
    assert Bulks([a]) == Bulk(a);
  }

  /**
   What the first command of an increment looks like on the wire: *2, $4, INCR, $1, k, each line ended by CR and LF.
   */
  lemma {:induction false} WireExample()
    ensures Command([Ascii("INCR"), Ascii("k")])
            == Ascii("*2\r\n") + (Ascii("$4\r\n") + Ascii("INCR\r\n") + (Ascii("$1\r\n") + Ascii("k\r\n")))
  {
    var incr, k := Ascii("INCR"), Ascii("k");
    WireOfTwo(incr, k);
    OneDigit(1);
    OneDigit(2);
    OneDigit(4);
    hide Decimal, Command;
    assert [STAR] + [ZERO + 2] + CRLF == Ascii("*2\r\n");
    assert [DOLLAR] + [ZERO + 4] + CRLF == Ascii("$4\r\n") && incr + CRLF == Ascii("INCR\r\n");
    assert [DOLLAR] + [ZERO + 1] + CRLF == Ascii("$1\r\n") && k + CRLF == Ascii("k\r\n");
    BulkGrouped(incr);
    BulkGrouped(k);
    hide Bulk, Ascii;
  }

  lemma {:induction false} BulkGrouped(part: seq<byte>)
    ensures Bulk(part) == ([DOLLAR] + Decimal(|part|) + CRLF) + (part + CRLF)
  {
    hide Decimal;
  }

  /** Replies on the wire, and what becomes of them. */
  lemma {:induction false} ReplyExamples()
    ensures ReadReply(Ascii(":-1\r\n")) == (Value(-1), [])
    ensures ReadReply(Ascii("+OK\r\n")) == (Value(0), [])
    ensures ReadReply(Ascii("-ERR\r\n")) == (Error(Ascii("ERR")), [])
  {
    OneDigit(1);
    assert Ascii(":-1\r\n") == PrintReply(Integer(-1)) + [];
    assert Ascii("+OK\r\n") == PrintReply(Status(Ascii("OK"))) + [];
    assert Ascii("-ERR\r\n") == PrintReply(Failure(Ascii("ERR"))) + [];
    hide ReadReply, PrintReply;
    ReplyRoundTrip(Integer(-1), []);
    ReplyRoundTrip(Status(Ascii("OK")), []);
    ReplyRoundTrip(Failure(Ascii("ERR")), []);
  }

  lemma {:induction false} ReadLineIsPrefix(stream: seq<byte>)
    requires ReadLine(stream).Some?
    ensures stream == ReadLine(stream).value.0 + ReadLine(stream).value.1
  {
    if stream[0] != LF {
      ReadLineIsPrefix(stream[1..]);
    }
  }

  /** Nothing but an integer or a status counts as success. */
  lemma {:induction false} OnlyIntegersAndStatusesSucceed(stream: seq<byte>)
    requires ReadReply(stream).0.Value?
    ensures -0x8000_0000_0000_0000 <= ReadReply(stream).0.value < 0x8000_0000_0000_0000
    ensures stream != [] && (stream[0] == Code(':') || (stream[0] == Code('+') && ReadReply(stream).0 == Value(0)))
  {
    ReadLineIsPrefix(stream);
    Text.TrimRightMeaning(ReadLine(stream).value.0, IsLineEnd);
  }
}
