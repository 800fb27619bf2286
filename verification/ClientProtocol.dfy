/** What the coordinator makes of a client's stream: command lines, and upload payloads that must
    never be read as commands. */
module ClientProtocol {
  import opened Wrappers
  import opened Text
  import opened Descriptors

  datatype Request =
    | UploadRequest(name: string, size: nat)
    | DownloadRequest(name: string)
    | DeleteRequest(name: string)
    | StatusRequest(name: string)
    | KillRequest(node: int)
    | ListRequest | Quit
    | UsageError(command: string)
    | UnknownRequest

  // ------------------------------------------------------------------------ command lines

  /** read_line drops carriage returns. */
  function Stripped(s: string): string {
    if s == "" then "" else (if s[0] == '\r' then "" else [s[0]]) + Stripped(s[1..])
  }

  /** The next command line and what follows it. A stream that ends before a newline counts as an
      empty line, which ends the session. */
  function CommandLine(stream: string): (r: (string, string))
    ensures r.0 != "" ==> |r.1| < |stream|
  {
    match SplitLine(stream)
    case None => ("", "")
    case Some((line, rest)) => (Stripped(line), rest)
  }

  lemma {:induction false} StrippedJoin(a: string, b: string)
    ensures Stripped(a + b) == Stripped(a) + Stripped(b)
    decreases |a|
  {
    if a == "" {
      assert a + b == b;
    } else {
      assert (a + b)[1..] == a[1..] + b;
      StrippedJoin(a[1..], b);
    }
  }

  lemma {:induction false} StrippedPlain(s: string)
    requires '\r' !in s
    ensures Stripped(s) == s
    decreases |s|
  {
    if s != "" {
      StrippedPlain(s[1..]);
    }
  }

  lemma PlainLine(line: string, rest: string)
    requires '\r' !in line && '\n' !in line
    ensures CommandLine(line + "\n" + rest) == (line, rest)
  {
    hide SplitLine, Stripped;
    StrippedPlain(line);
    SplitLineOf(line, rest);
  }

  lemma StrippedFirst(c: char, s: string)
    ensures Stripped([c] + s) == (if c == '\r' then "" else [c]) + Stripped(s)
  {
    assert ([c] + s)[1..] == s;
  }

  lemma StrippedReturn(a: string, b: string)
    requires '\r' !in a
    ensures Stripped(a + "\r" + b) == a + Stripped(b)
  {
    hide Stripped;
    StrippedFirst('\r', b);
    StrippedPlain(a);
    StrippedJoin(a, "\r" + b);
    assert a + "\r" + b == a + ("\r" + b);
  }

  /** Carriage returns go, wherever they stand, and nothing else does. */
  lemma ReturnsGo(a: string, b: string, rest: string)
    requires '\r' !in a && '\n' !in a && '\n' !in b
    ensures CommandLine(a + "\r" + b + "\n" + rest) == (a + Stripped(b), rest)
  {
    hide SplitLine, Stripped;
    StrippedReturn(a, b);
    SplitLineOf(a + "\r" + b, rest);
  }

  method ReadLine(fd: Descriptor) returns (line: string)
    modifies fd`incoming
    ensures (line, fd.incoming) == CommandLine(old(fd.incoming))
  {
    line := "";
    ghost var raw := "";
    while true
      invariant raw + fd.incoming == old(fd.incoming) && '\n' !in raw && line == Stripped(raw)
      decreases |fd.incoming|
    {
      ghost var before := fd.incoming;
      var got := fd.Read(1);
      if got == "" {
        assert old(fd.incoming) == raw + "" == raw;
        return "";
      }
      if got[0] == '\n' {
        assert old(fd.incoming) == raw + "\n" + fd.incoming;
        SplitLineOf(raw, fd.incoming);
        return;
      }
      assert raw + before == (raw + got) + fd.incoming;
      StrippedJoin(raw, got);
      assert got == [got[0]];
      raw := raw + got;
      if got[0] != '\r' {
        line := line + got;
      }
    }
  }

  // ----------------------------------------------------------------------------- dispatch

  function Upper(s: string): string {
    if s == "" then "" else
      [if 'a' <= s[0] <= 'z' then 'A' + (s[0] - 'a') else s[0]] + Upper(s[1..])
  }

  /** Small letters become capitals, everything else stays. */
  lemma {:induction false} UpperIs(s: string, t: string)
    requires |s| == |t|
    requires forall k :: 0 <= k < |s| ==> t[k] == if 'a' <= s[k] <= 'z' then 'A' + (s[k] - 'a') else s[k]
    ensures Upper(s) == t
    decreases |s|
  {
    if s != "" {
      UpperIs(s[1..], t[1..]);
    }
  }

  lemma UpperFixed(s: string)
    requires forall k :: 0 <= k < |s| ==> !('a' <= s[k] <= 'z')
    ensures Upper(s) == s
  {
    UpperIs(s, s);
  }

  /** `iss >> node_id` on a variable holding -1: without a word it keeps that value. */
  function NodeArgument(s: string): int {
    if SkipSpaces(s) == "" then -1 else IntArgument(s, INT_MIN, INT_MAX)
  }

  function ParseCommand(line: string): Request {
    var (word, args) := NextWord(line);
    var (name, rest) := NextWord(args);
    var command := Upper(word);
    if command == "QUIT" then Quit
    else if command == "LIST" then ListRequest
    else if command == "UPLOAD" then
      (if name == "" || SizeArgument(rest) == 0 then UsageError(command) else UploadRequest(name, SizeArgument(rest)))
    else if command == "DOWNLOAD" then
      (if name == "" then UsageError(command) else DownloadRequest(name))
    else if command == "DELETE" then
      (if name == "" then UsageError(command) else DeleteRequest(name))
    else if command == "STATUS" then StatusRequest(name)
    else if command == "KILL_NODE" then KillRequest(NodeArgument(args))
    else UnknownRequest
  }

  /** A digit, possibly behind a sign: what makes an integer extraction succeed or overflow. */
  predicate Numeric(word: string) {
    var u := if word != "" && (word[0] == '-' || word[0] == '+') then word[1..] else word;
    u != "" && IsDigit(u[0])
  }

  /** KILL_NODE with a number means that node. Any other word means node 0, because the failed
      extraction stores 0 where the code expects -1 to stay. */
  lemma KillLine(word: string)
    requires IsWord(word)
    ensures var r := ParseCommand("KILL_NODE " + word);
            && r.KillRequest?
            && (r.node == 0 <==> !Numeric(word) || Stoi(word) == Some(0))
            && (Stoi(word).Some? ==> Numeric(word) && r.node == Stoi(word).value)
            && (Numeric(word) && Stoi(word).None? ==> r.node == if word[0] == '-' then INT_MIN else INT_MAX)
  {
    hide ParseCommand;
    KillArgument(word);
    StoiAfterSpace(word);
  }

  lemma KillWordMeansNodeZero()
    ensures ParseCommand("KILL_NODE all") == KillRequest(0) && ParseCommand("KILL_NODE -x") == KillRequest(0)
  {
    hide ParseCommand, Stoi;
    assert "KILL_NODE " + "all" == "KILL_NODE all" && "KILL_NODE " + "-x" == "KILL_NODE -x";
    KillLine("all");
    KillLine("-x");
  }

  lemma KillParsed(line: string, args: string)
    requires NextWord(line) == ("KILL_NODE", args)
    ensures ParseCommand(line) == KillRequest(NodeArgument(args))
  {
    hide NodeArgument, SizeArgument, NextWord, Upper;
    UpperFixed("KILL_NODE");
  }

  lemma KillArgument(word: string)
    requires IsWord(word)
    ensures ParseCommand("KILL_NODE " + word) == KillRequest(NodeArgument(" " + word))
  {
    hide ParseCommand, NodeArgument;
    NextWordOf("KILL_NODE", " " + word);
    assert "KILL_NODE " + word == "KILL_NODE" + (" " + word);
    KillParsed("KILL_NODE " + word, " " + word);
  }

  /** One request as it was taken off the stream. */
  datatype Taken = Taken(request: Request, payload: string)

  /** What a whole client stream means. An upload's payload is exactly as long as announced, or
      all there is. */
  function Session(stream: string): seq<Taken>
    decreases |stream|
  {
    var (line, rest) := CommandLine(stream);
    if line == "" then [] else
      var r := ParseCommand(line);
      var n := if r.UploadRequest? then Min(r.size, |rest|) else 0;
      [Taken(r, rest[..n])] + if r.Quit? then [] else Session(rest[n..])
  }

  // --------------------------------------------------------------------------- round trip

  /** What the client program sends. */
  datatype Command = Upload(name: string, bytes: string) | Download(name: string) | Delete(name: string)

  predicate Sendable(c: Command) {
    IsWord(c.name) && (c.Upload? ==> 0 < |c.bytes| < SIZE_LIMIT)
  }

  function HeadLine(c: Command): string {
    match c
    case Upload(name, bytes) => "UPLOAD " + name + " " + Decimal(|bytes|)
    case Download(name) => "DOWNLOAD " + name
    case Delete(name) => "DELETE " + name
  }

  function Payload(c: Command): string {
    if c.Upload? then c.bytes else ""
  }

  function Encode(c: Command): string {
    HeadLine(c) + "\n" + Payload(c)
  }

  function EncodeAll(cs: seq<Command>): string {
    if cs == [] then "" else Encode(cs[0]) + EncodeAll(cs[1..])
  }

  function Meaning(c: Command): Taken {
    match c
    case Upload(name, bytes) => Taken(UploadRequest(name, |bytes|), bytes)
    case Download(name) => Taken(DownloadRequest(name), "")
    case Delete(name) => Taken(DeleteRequest(name), "")
  }

  function Meanings(cs: seq<Command>): seq<Taken> {
    if cs == [] then [] else [Meaning(cs[0])] + Meanings(cs[1..])
  }

  /** Commands are read in either case; an upload needs a name and a size that is not zero. */
  lemma UploadArguments(word: string, name: string, args: string)
    requires IsWord(word) && Upper(word) == "UPLOAD" && IsWord(name) && (args == "" || IsSpace(args[0]))
    ensures ParseCommand(word + " " + name + args)
            == if SizeArgument(args) == 0 then UsageError("UPLOAD") else UploadRequest(name, SizeArgument(args))
  {
    hide NextWord, SizeArgument, Upper;
    TwoWords(word, name, args);
  }

  lemma UploadLine(name: string, n: nat)
    requires IsWord(name) && 0 < n < SIZE_LIMIT
    ensures ParseCommand("UPLOAD " + name + " " + Decimal(n)) == UploadRequest(name, n)
  {
    hide ParseCommand, NextSize, Decimal, Upper;
    UpperFixed("UPLOAD");
    UploadArguments("UPLOAD", name, " " + Decimal(n));
    NextSizeOf(n);
    assert "UPLOAD " + name + " " + Decimal(n) == "UPLOAD" + " " + name + (" " + Decimal(n));
  }

  lemma EmptyIsNoNumber()
    ensures NextNumber("").None?
  {
  }

  lemma SizeTexts()
    ensures SizeArgument(" 12") == 12 && SizeArgument("") == 0 && SizeArgument(" x") == 0
  {
    hide NextNumber;
    NumberTexts();
    StoiAfterSpace("x");
    NoNumber("x");
    assert " " + "x" == " x";
    EmptyIsNoNumber();
  }

  lemma UpperMixed()
    ensures Upper("upLoad") == "UPLOAD"
  {
    UpperIs("upLoad", "UPLOAD");
  }

  /** Some command lines and what they mean. */
  lemma UploadTexts()
    ensures ParseCommand("UPLOAD f 12") == ParseCommand("upLoad f 12") == UploadRequest("f", 12)
    ensures ParseCommand("UPLOAD f") == ParseCommand("UPLOAD f x") == UsageError("UPLOAD")
  {
    hide ParseCommand, SizeArgument, Upper;
    SizeTexts();
    UpperFixed("UPLOAD");
    UpperMixed();
    UploadArguments("UPLOAD", "f", " 12");
    UploadArguments("upLoad", "f", " 12");
    UploadArguments("UPLOAD", "f", "");
    UploadArguments("UPLOAD", "f", " x");
    assert "UPLOAD" + " " + "f" + " 12" == "UPLOAD f 12" && "upLoad" + " " + "f" + " 12" == "upLoad f 12";
    assert "UPLOAD" + " " + "f" + "" == "UPLOAD f" && "UPLOAD" + " " + "f" + " x" == "UPLOAD f x";
  }

  lemma KillTexts()
    ensures ParseCommand("KILL_NODE 12") == KillRequest(12) && ParseCommand("KILL_NODE -12") == KillRequest(-12)
    ensures ParseCommand("KILL_NODE") == KillRequest(-1)
  {
    hide ParseCommand, NextNumber, NextWord;
    NumberTexts();
    assert "KILL_NODE " + "12" == "KILL_NODE 12" && "KILL_NODE " + "-12" == "KILL_NODE -12";
    KillLine("12");
    KillLine("-12");
    NextWordOf("KILL_NODE", "");
    assert "KILL_NODE" + "" == "KILL_NODE";
    KillParsed("KILL_NODE", "");
  }

  lemma OneWordTexts()
    ensures ParseCommand("DOWNLOAD") == UsageError("DOWNLOAD") && ParseCommand("DELETE") == UsageError("DELETE")
    ensures ParseCommand("LIST") == ListRequest && ParseCommand("QUIT") == Quit
    ensures ParseCommand("HELP") == UnknownRequest
  {
    hide ParseCommand;
    OneWord("DOWNLOAD");
    OneWord("DELETE");
    OneWord("LIST");
    OneWord("QUIT");
    OneWord("HELP");
  }

  lemma OneWord(word: string)
    requires IsWord(word) && forall k :: 0 <= k < |word| ==> !('a' <= word[k] <= 'z')
    ensures ParseCommand(word) == match word
              case "QUIT" => Quit
              case "LIST" => ListRequest
              case "UPLOAD" => UsageError(word)
              case "DOWNLOAD" => UsageError(word)
              case "DELETE" => UsageError(word)
              case "STATUS" => StatusRequest("")
              case "KILL_NODE" => KillRequest(-1)
              case _ => UnknownRequest
  {
    NextWordOf(word, "");
    assert word + "" == word;
    UpperFixed(word);
  }

  lemma DownloadLine(name: string)
    requires IsWord(name)
    ensures ParseCommand("DOWNLOAD " + name) == DownloadRequest(name)
  {
    hide NextWord;
    TwoWords("DOWNLOAD", name, "");
    assert "DOWNLOAD " + name == "DOWNLOAD" + " " + name + "";
    UpperFixed("DOWNLOAD");
  }

  lemma DeleteLine(name: string)
    requires IsWord(name)
    ensures ParseCommand("DELETE " + name) == DeleteRequest(name)
  {
    hide NextWord;
    TwoWords("DELETE", name, "");
    assert "DELETE " + name == "DELETE" + " " + name + "";
    UpperFixed("DELETE");
  }

  lemma PlainWords(name: string, n: nat)
    requires IsWord(name)
    ensures '\n' !in name && '\r' !in name && '\n' !in Decimal(n) && '\r' !in Decimal(n)
  {
  }

  lemma HeadLineIsPlain(c: Command)
    requires IsWord(c.name)
    ensures '\n' !in HeadLine(c) && '\r' !in HeadLine(c) && HeadLine(c) != ""
  {
    PlainWords(c.name, |Payload(c)|);
  }

  lemma HeadLineParses(c: Command)
    requires Sendable(c)
    ensures ParseCommand(HeadLine(c)) == Meaning(c).request
  {
    match c
    case Upload(name, bytes) => UploadLine(name, |bytes|);
    case Download(name) => DownloadLine(name);
    case Delete(name) => DeleteLine(name);
  }

  /** One command in front of anything. */
  lemma SessionStep(c: Command, rest: string)
    requires Sendable(c)
    ensures Session(Encode(c) + rest) == [Meaning(c)] + Session(rest)
  {
    hide ParseCommand, SplitLine, HeadLine, Upper;
    var head, stream := HeadLine(c), Encode(c) + rest;
    HeadLineParses(c);
    HeadLineIsPlain(c);
    assert stream == head + "\n" + (Payload(c) + rest);
    SplitLineOf(head, Payload(c) + rest);
    StrippedPlain(head);
    assert CommandLine(stream) == (head, Payload(c) + rest);
    var n := |Payload(c)|;
    assert (Payload(c) + rest)[..n] == Payload(c) && (Payload(c) + rest)[n..] == rest;
  }

  /** Whatever bytes the payloads hold, newlines and text that looks like commands included, the
      server takes exactly the commands sent off the stream, each with exactly its payload. */
  lemma {:induction false} SessionRoundTrip(cs: seq<Command>)
    requires forall c :: c in cs ==> Sendable(c)
    ensures Session(EncodeAll(cs)) == Meanings(cs)
    decreases |cs|
  {
    if cs != [] {
      SessionStep(cs[0], EncodeAll(cs[1..]));
      SessionRoundTrip(cs[1..]);
    }
  }

  lemma SessionOnce(stream: string, line: string, rest: string)
    requires line != "" && CommandLine(stream) == (line, rest)
    ensures var r := ParseCommand(line);
            var n := if r.UploadRequest? then Min(r.size, |rest|) else 0;
            Session(stream) == [Taken(r, rest[..n])] + if r.Quit? then [] else Session(rest[n..])
  {
    hide ParseCommand, CommandLine;
  }

  /** A stream that ends inside a payload: the upload is taken with what has arrived. */
  lemma CutOff(name: string, n: nat, part: string)
    requires IsWord(name) && |part| < n < SIZE_LIMIT
    ensures Session("UPLOAD " + name + " " + Decimal(n) + "\n" + part) == [Taken(UploadRequest(name, n), part)]
  {
    hide ParseCommand, CommandLine, Decimal, Session, IsWord;
    var head := "UPLOAD " + name + " " + Decimal(n);
    UploadLine(name, n);
    PlainWords(name, n);
    PlainLine(head, part);
    SessionOnce(head + "\n" + part, head, part);
    assert part[..|part|] == part && part[|part|..] == "";
    SessionEnds("");
  }

  /** QUIT, an empty line and the end of the stream end the session, whatever follows. */
  lemma SessionEnds(rest: string)
    ensures Session("QUIT\n" + rest) == [Taken(Quit, "")]
    ensures Session("\n" + rest) == [] && Session("") == []
  {
    hide ParseCommand, CommandLine, Session;
    OneWord("QUIT");
    PlainLine("QUIT", rest);
    assert "QUIT" + "\n" + rest == "QUIT\n" + rest;
    SessionOnce("QUIT\n" + rest, "QUIT", rest);
    assert rest[..0] == "";
    PlainLine("", rest);
    assert "" + "\n" + rest == "\n" + rest;
    NothingMore("\n" + rest);
    NothingMore("");
  }

  lemma NothingMore(stream: string)
    requires CommandLine(stream).0 == ""
    ensures Session(stream) == []
  {
  }
}
