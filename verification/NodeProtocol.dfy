/** The text-and-payload protocol between coordinator and node: what a stream of requests
    means, how requests are written, and how replies are read back. */
module NodeProtocol {
  import opened Wrappers
  import opened Text
  import opened Descriptors
  import opened Journal
  import opened NodeStorage

  datatype Request =
    | StoreRequest(name: string, size: nat)
    | RetrieveRequest(name: string)
    | DeleteRequest(name: string)
    | ListRequest | StatusRequest | KillRequest
    | BadSyntax(command: string)
    | UnknownRequest

  /** The dispatch of handle_connection on one line. */
  function ParseRequest(line: string): Request {
    var (command, args) := NextWord(line);
    var (name, rest) := NextWord(args);
    if command == "NODE_STORE" then
      (if name == "" || NextSize(rest).None? then BadSyntax(command) else StoreRequest(name, NextSize(rest).value))
    else if command == "NODE_RETRIEVE" then
      (if name == "" then BadSyntax(command) else RetrieveRequest(name))
    else if command == "NODE_DELETE" then
      (if name == "" then BadSyntax(command) else DeleteRequest(name))
    else if command == "NODE_LIST" then ListRequest
    else if command == "NODE_STATUS" then StatusRequest
    else if command == "NODE_KILL" then KillRequest
    else UnknownRequest
  }

  datatype Reply =
    | Ok
    | Error(why: string)
    | File(name: string, bytes: string)
    | Listing(entries: seq<(string, nat)>)
    | Report(count: nat, total: nat)
    | Folder(total: nat)            // a header that announces bytes that never come

  function RenderEntries(entries: seq<(string, nat)>): string {
    if entries == [] then "" else
      entries[0].0 + " " + Decimal(entries[0].1) + "\n" + RenderEntries(entries[1..])
  }

  function Render(reply: Reply): string {
    match reply
    case Ok => "OK\n"
    case Error(why) => "ERROR " + why + "\n"
    case File(name, bytes) => FileHeader(name, |bytes|) + bytes
    case Listing(entries) => "LIST " + Decimal(|entries|) + "\n" + RenderEntries(entries)
    case Report(count, total) => "STATUS " + Decimal(count) + " " + Decimal(total) + "\n"
    case Folder(total) => FileHeader(ROOT, total)
  }

  function RenderAll(replies: seq<Reply>): string {
    if replies == [] then "" else Render(replies[0]) + RenderAll(replies[1..])
  }

  /** A node as its connections see it: flat files and the cached byte total. */
  datatype Local = Local(files: map<string, string>, cached: int)

  /** OK is sent in both cases: a name whose parent directory is missing is accepted, not
      stored, and costs the cache one byte. */
  function StoreLocal(l: Local, name: string, bytes: string): Local {
    if Parent(name) == ROOT then
      Local(l.files[name := bytes], l.cached - (if name in l.files then |l.files[name]| else 0) + |bytes|)
    else Local(l.files, l.cached - 1)
  }

  /** A failed deletion makes handle_delete recompute the cache. */
  ghost function DeleteLocal(l: Local, name: string): (Local, Reply) {
    if name in l.files then (Local(l.files - {name}, l.cached - |l.files[name]|), Ok)
    else (Local(l.files, Total(l.files)), Error("failed to delete file"))
  }

  ghost function RetrieveLocal(l: Local, name: string): Reply {
    if name in l.files then File(name, l.files[name])
    else if name == ROOT then Folder(Total(l.files))
    else Error("file not found")
  }

  /** A name that starts with NUL reaches the file system as the storage directory itself.
      Removing it throws, without a reply, while anything is in it; if nothing is, it goes, and
      what was to be stored under that name is dropped. */
  ghost function RemoveRoot(l: Local, store: bool): (Local, seq<Reply>) {
    if l.files != map[] then (l, []) else (Local(map[], l.cached - (if store then 1 else 0)), [Ok])
  }

  /** NODE_LIST walks the directory in an order the file system chooses. */
  type Order = set<string> -> seq<string>

  function Entries(files: map<string, string>, names: seq<string>): seq<(string, nat)> {
    if names == [] then [] else
      [(names[0], if names[0] in files then |files[names[0]]| else 0)] + Entries(files, names[1..])
  }

  function ListLocal(l: Local, order: Order): Reply {
    Listing(Entries(l.files, order(l.files.Keys)))
  }

  function StatusLocal(l: Local, order: Order): Reply {
    Report(|order(l.files.Keys)|, if l.cached < 0 then 0 else l.cached)
  }

  /** Lost: the storage directory was to be removed. */
  datatype Fate = Serving | Killed | Lost

  datatype Served = Served(local: Local, replies: seq<Reply>, fate: Fate)

  datatype Handled = Handled(local: Local, replies: seq<Reply>, rest: string, fate: Fate)

  /** One command line and what follows it on the stream. Storage sees names up to their first
      NUL. A payload cut off by the end of the stream is stored as far as it got. */
  ghost function Handle(l: Local, order: Order, line: string, rest: string): (h: Handled)
    ensures |h.rest| <= |rest|
  {
    match ParseRequest(line)
    case StoreRequest(name, size) =>
      var key, n := CString(name), Min(size, |rest|);
      if key == ROOT then Handled(RemoveRoot(l, true).0, RemoveRoot(l, true).1, rest[n..], Lost)
      else Handled(StoreLocal(l, key, rest[..n]), [Ok], rest[n..], Serving)
    case RetrieveRequest(name) => Handled(l, [RetrieveLocal(l, CString(name))], rest, Serving)
    case DeleteRequest(name) =>
      var key := CString(name);
      if key == ROOT then Handled(RemoveRoot(l, false).0, RemoveRoot(l, false).1, rest, Lost)
      else Handled(DeleteLocal(l, key).0, [DeleteLocal(l, key).1], rest, Serving)
    case ListRequest => Handled(l, [ListLocal(l, order)], rest, Serving)
    case StatusRequest => Handled(l, [StatusLocal(l, order)], rest, Serving)
    case KillRequest => Handled(l, [Ok], rest, Killed)
    case BadSyntax(command) => Handled(l, [Error("invalid " + command + " syntax")], rest, Serving)
    case UnknownRequest => Handled(l, [Error("unknown command")], rest, Serving)
  }

  /** The meaning of everything a connection delivers. */
  ghost function Serve(l: Local, order: Order, stream: string): Served
    decreases |stream|
  {
    match SplitLine(stream)
    case None => Served(l, [], Serving)
    case Some((line, rest)) =>
      var h := Handle(l, order, line, rest);
      if h.fate.Serving? then Then(h.replies, Serve(h.local, order, h.rest))
      else Served(h.local, h.replies, h.fate)
  }

  function Then(replies: seq<Reply>, served: Served): Served {
    served.(replies := replies + served.replies)
  }

  // ------------------------------------------------------------------ requests round trip

  /** What the coordinator sends on a node connection. */
  datatype Command = Put(name: string, bytes: string) | Get(name: string) | Del(name: string)

  predicate WellFormed(c: Command) {
    IsWord(c.name) && c.name[0] != '\0' && (c.Put? ==> |c.bytes| < SIZE_LIMIT)
  }

  function Encode(c: Command): string {
    match c
    case Put(name, bytes) => "NODE_STORE " + name + " " + Decimal(|bytes|) + "\n" + bytes
    case Get(name) => "NODE_RETRIEVE " + name + "\n"
    case Del(name) => "NODE_DELETE " + name + "\n"
  }

  function EncodeAll(cs: seq<Command>): string {
    if cs == [] then "" else Encode(cs[0]) + EncodeAll(cs[1..])
  }

  ghost function Execute(l: Local, c: Command): (Local, Reply) {
    match c
    case Put(name, bytes) => (StoreLocal(l, CString(name), bytes), Ok)
    case Get(name) => (l, RetrieveLocal(l, CString(name)))
    case Del(name) => DeleteLocal(l, CString(name))
  }

  ghost function ExecuteAll(l: Local, cs: seq<Command>): (Local, seq<Reply>)
    decreases |cs|
  {
    if cs == [] then (l, []) else
      var (l1, reply) := Execute(l, cs[0]);
      var (l2, replies) := ExecuteAll(l1, cs[1..]);
      (l2, [reply] + replies)
  }

  function HeadLine(c: Command): string {
    match c
    case Put(name, bytes) => "NODE_STORE " + name + " " + Decimal(|bytes|)
    case Get(name) => "NODE_RETRIEVE " + name
    case Del(name) => "NODE_DELETE " + name
  }

  function Payload(c: Command): string {
    if c.Put? then c.bytes else ""
  }

  lemma DecimalIsPlain(n: nat)
    ensures '\n' !in Decimal(n) && ' ' !in Decimal(n)
  {
  }

  lemma PutLineParses(name: string, n: nat)
    requires IsWord(name) && n < SIZE_LIMIT
    ensures ParseRequest("NODE_STORE " + name + " " + Decimal(n)) == StoreRequest(name, n)
  {
    TwoWords("NODE_STORE", name, " " + Decimal(n));
    NextSizeOf(n);
    assert "NODE_STORE " + name + " " + Decimal(n) == "NODE_STORE" + " " + name + (" " + Decimal(n));
  }

  lemma OtherLineParses(word: string, name: string)
    requires IsWord(name) && (word == "NODE_RETRIEVE" || word == "NODE_DELETE")
    ensures ParseRequest(word + " " + name)
            == if word == "NODE_RETRIEVE" then RetrieveRequest(name) else DeleteRequest(name)
  {
    TwoWords(word, name, "");
    assert word + " " + name == word + " " + name + "";
  }

  lemma HeadLineIsPlain(c: Command)
    requires IsWord(c.name)
    ensures '\n' !in HeadLine(c) && Encode(c) == HeadLine(c) + "\n" + Payload(c)
  {
    DecimalIsPlain(|Payload(c)|);
  }

  lemma HeadLineParses(c: Command)
    requires WellFormed(c)
    ensures ParseRequest(HeadLine(c)) == match c
              case Put(name, bytes) => StoreRequest(name, |bytes|)
              case Get(name) => RetrieveRequest(name)
              case Del(name) => DeleteRequest(name)
  {
    match c {
      case Put(name, bytes) => PutLineParses(name, |bytes|);
      case Get(name) =>
        OtherLineParses("NODE_RETRIEVE", name);
        assert "NODE_RETRIEVE " + name == "NODE_RETRIEVE" + " " + name;
      case Del(name) =>
        OtherLineParses("NODE_DELETE", name);
        assert "NODE_DELETE " + name == "NODE_DELETE" + " " + name;
    }
  }

  lemma HandleOne(l: Local, order: Order, c: Command, later: string)
    requires WellFormed(c)
    ensures Handle(l, order, HeadLine(c), Payload(c) + later)
            == Handled(Execute(l, c).0, [Execute(l, c).1], later, Serving)
  {
    hide NextWord, NextSize, ParseRequest, StoreLocal, DeleteLocal, RetrieveLocal;
    HeadLineParses(c);
    var rest := Payload(c) + later;
    assert rest[..|Payload(c)|] == Payload(c) && rest[|Payload(c)|..] == later;
  }

  lemma ServeOne(l: Local, order: Order, c: Command, later: string)
    requires WellFormed(c)
    ensures Serve(l, order, Encode(c) + later) == Then([Execute(l, c).1], Serve(Execute(l, c).0, order, later))
  {
    hide SplitLine, Handle, Execute, Encode, HeadLine, Payload, IsWord;
    HandleOne(l, order, c, later);
    HeadLineIsPlain(c);
    var stream := Encode(c) + later;
    var line, rest := HeadLine(c), Payload(c) + later;
    assert stream == line + "\n" + rest;
    SplitLineOf(line, rest);
  }

  /** Any sequence of commands, whatever bytes the payloads hold, is executed exactly. */
  lemma {:induction false} ServeExecutes(l: Local, order: Order, cs: seq<Command>)
    requires forall c :: c in cs ==> WellFormed(c)
    ensures var (l', replies) := ExecuteAll(l, cs);
            Serve(l, order, EncodeAll(cs)) == Served(l', replies, Serving)
    decreases |cs|
  {
    if cs != [] {
      var l1 := Execute(l, cs[0]).0;
      ServeOne(l, order, cs[0], EncodeAll(cs[1..]));
      ServeExecutes(l1, order, cs[1..]);
      assert ExecuteAll(l, cs).0 == ExecuteAll(l1, cs[1..]).0;
    }
  }

  /** One line in front of anything. */
  lemma ServeFirst(l: Local, order: Order, line: string, rest: string)
    requires '\n' !in line
    ensures var h := Handle(l, order, line, rest);
            Serve(l, order, line + "\n" + rest)
            == if h.fate.Serving? then Then(h.replies, Serve(h.local, order, h.rest))
               else Served(h.local, h.replies, h.fate)
  {
    hide Handle, SplitLine;
    SplitLineOf(line, rest);
  }

  /** NODE_KILL is answered and ends everything; a line that never ends is no command. */
  lemma ServeStops(l: Local, order: Order, rest: string)
    ensures Serve(l, order, "NODE_KILL\n" + rest) == Served(l, [Ok], Killed)
    ensures '\n' !in rest ==> Serve(l, order, rest) == Served(l, [], Serving)
  {
    hide ParseRequest, Serve;
    OneWord("NODE_KILL");
    ServeFirst(l, order, "NODE_KILL", rest);
    assert "NODE_KILL" + "\n" + rest == "NODE_KILL\n" + rest;
    if '\n' !in rest {
      NothingServed(l, order, rest);
    }
  }

  lemma NothingServed(l: Local, order: Order, rest: string)
    requires '\n' !in rest
    ensures Serve(l, order, rest) == Served(l, [], Serving)
  {
  }

  /** A connection that breaks off inside a payload leaves what has arrived, and is answered OK. */
  lemma CutStore(l: Local, order: Order, name: string, n: nat, part: string)
    requires IsWord(name) && CString(name) != ROOT && |part| < n < SIZE_LIMIT
    ensures Serve(l, order, "NODE_STORE " + name + " " + Decimal(n) + "\n" + part)
            == Served(StoreLocal(l, CString(name), part), [Ok], Serving)
  {
    hide ParseRequest, Serve, StoreLocal, Decimal, NextWord, NextSize;
    PutLineParses(name, n);
    DecimalIsPlain(n);
    ServeFirst(l, order, "NODE_STORE " + name + " " + Decimal(n), part);
    assert part[..|part|] == part && part[|part|..] == "";
    NothingServed(StoreLocal(l, CString(name), part), order, "");
  }

  lemma ExactAfterOne(l: Local, c: Command)
    requires l.cached == Total(l.files)
    ensures var after := Execute(l, c).0;
            after.cached == Total(after.files) <==> (c.Put? ==> Parent(CString(c.name)) == ROOT)
  {
    match c
    case Put(name, bytes) => TotalUpdate(l.files, CString(name), bytes);
    case Get(_) =>
    case Del(name) => TotalWithout(l.files, CString(name));
  }

  /** An exact cache stays exact over any requests whose names have no directory in front. */
  lemma {:induction false} CacheStaysExact(l: Local, cs: seq<Command>)
    requires l.cached == Total(l.files)
    requires forall c :: c in cs && c.Put? ==> Parent(CString(c.name)) == ROOT
    ensures var after := ExecuteAll(l, cs).0; after.cached == Total(after.files)
    decreases |cs|
  {
    if cs != [] {
      ExactAfterOne(l, cs[0]);
      CacheStaysExact(Execute(l, cs[0]).0, cs[1..]);
    }
  }

  /** A store that was answered OK has stored something if and only if there was a place for it. */
  lemma AcknowledgedIsStored(l: Local, name: string, bytes: string)
    requires forall p :: p in l.files ==> Parent(p) == ROOT
    ensures name in StoreLocal(l, name, bytes).files && StoreLocal(l, name, bytes).files[name] == bytes
            <==> Parent(name) == ROOT
  {
  }

  lemma MissingParentIsAcknowledged(l: Local, order: Order)
    ensures Handle(l, order, "NODE_STORE a/b 1", "x") == Handled(Local(l.files, l.cached - 1), [Ok], "", Serving)
  {
    hide NextWord, NextSize, ParseRequest;
    PutLineParses("a/b", 1);
    assert "NODE_STORE " + "a/b" + " " + Decimal(1) == "NODE_STORE a/b 1";
    assert CString("a/b") == "a/b";
    assert Parent("a/b") == Parent("a/") == "a";
  }

  /** A line of a single word. */
  lemma OneWord(word: string)
    requires IsWord(word)
    ensures ParseRequest(word) == match word
              case "NODE_STORE" => BadSyntax(word)
              case "NODE_RETRIEVE" => BadSyntax(word)
              case "NODE_DELETE" => BadSyntax(word)
              case "NODE_LIST" => ListRequest
              case "NODE_STATUS" => StatusRequest
              case "NODE_KILL" => KillRequest
              case _ => UnknownRequest
  {
    NextWordOf(word, "");
    assert word + "" == word;
  }

  /** A store needs a size that is a number in range. */
  lemma StoreNeedsSize(name: string, args: string)
    requires IsWord(name) && (args == "" || IsSpace(args[0]))
    ensures ParseRequest("NODE_STORE " + name + args)
            == if NextSize(args).Some? then StoreRequest(name, NextSize(args).value) else BadSyntax("NODE_STORE")
  {
    hide NextWord, NextSize;
    TwoWords("NODE_STORE", name, args);
    assert "NODE_STORE " + name + args == "NODE_STORE" + " " + name + args;
  }

  lemma AbsentTexts(l: Local, name: string)
    requires name !in l.files
    ensures name != ROOT ==> Render(RetrieveLocal(l, name)) == "ERROR file not found\n"
    ensures Render(DeleteLocal(l, name).1) == "ERROR failed to delete file\n"
  {
    assert "ERROR " + "file not found" + "\n" == "ERROR file not found\n";
    assert "ERROR " + "failed to delete file" + "\n" == "ERROR failed to delete file\n";
  }

  lemma BadSyntaxAnswer(l: Local, order: Order, line: string, rest: string, command: string)
    requires ParseRequest(line) == BadSyntax(command)
    ensures Handle(l, order, line, rest).(replies := []) == Handled(l, [], rest, Serving)
    ensures RenderAll(Handle(l, order, line, rest).replies) == "ERROR invalid " + command + " syntax\n"
  {
    hide ParseRequest;
    OneLine(Error("invalid " + command + " syntax"));
    assert "ERROR " + ("invalid " + command + " syntax") + "\n" == "ERROR invalid " + command + " syntax\n";
  }

  lemma OneLine(reply: Reply)
    ensures RenderAll([reply]) == Render(reply)
  {
    assert RenderAll([reply]) == Render(reply) + RenderAll([reply][1..]);
  }

  /** What a node answers to some lines, as text. */
  lemma StoreText(l: Local, order: Order, rest: string)
    ensures RenderAll(Handle(l, order, "NODE_STORE f x", rest).replies) == "ERROR invalid NODE_STORE syntax\n"
  {
    hide ParseRequest, Handle, RenderAll, NextNumber;
    StoreNeedsSize("f", " x");
    assert "NODE_STORE " + "f" + " x" == "NODE_STORE f x" && " " + "x" == " x";
    StoiAfterSpace("x");
    NoNumber("x");
    BadSyntaxAnswer(l, order, "NODE_STORE f x", rest, "NODE_STORE");
    assert "ERROR invalid " + "NODE_STORE" + " syntax\n" == "ERROR invalid NODE_STORE syntax\n";
  }

  lemma DeleteText(l: Local, order: Order, rest: string)
    ensures RenderAll(Handle(l, order, "NODE_DELETE", rest).replies) == "ERROR invalid NODE_DELETE syntax\n"
  {
    hide ParseRequest, Handle, RenderAll;
    OneWord("NODE_DELETE");
    BadSyntaxAnswer(l, order, "NODE_DELETE", rest, "NODE_DELETE");
    assert "ERROR invalid " + "NODE_DELETE" + " syntax\n" == "ERROR invalid NODE_DELETE syntax\n";
  }

  lemma UnknownText(l: Local, order: Order, rest: string)
    ensures var h := Handle(l, order, "HELLO", rest);
            h.(replies := []) == Handled(l, [], rest, Serving) && RenderAll(h.replies) == "ERROR unknown command\n"
  {
    hide ParseRequest, RenderAll;
    OneWord("HELLO");
    OneLine(Error("unknown command"));
  }

  lemma KillText(l: Local, order: Order, rest: string)
    ensures var h := Handle(l, order, "NODE_KILL", rest);
            h.(replies := []) == Handled(l, [], rest, Killed) && RenderAll(h.replies) == "OK\n"
  {
    hide ParseRequest, RenderAll;
    OneWord("NODE_KILL");
    OneLine(Ok);
  }

  /** Requests and replies as they stand on the wire. */
  lemma RequestTexts()
    ensures Encode(Put("f", "ab")) == "NODE_STORE f 2\nab"
    ensures Encode(Get("f")) == "NODE_RETRIEVE f\n" && Encode(Del("f")) == "NODE_DELETE f\n"
  {
    hide Decimal;
    DecimalTexts();
  }

  lemma FileText()
    ensures Render(File("f", "ab")) == "FILE f 2\nab"
  {
    hide Decimal;
    DecimalTexts();
  }

  lemma ReportText()
    ensures Render(Report(2, 12)) == "STATUS 2 12\n"
  {
    hide Decimal;
    DecimalTexts();
  }

  lemma ListingText()
    ensures Render(Listing([("f", 12), ("g", 2)])) == "LIST 2\nf 12\ng 2\n"
  {
    hide Decimal, RenderEntries;
    DecimalTexts();
    var e, f: (string, nat) := ("f", 12), ("g", 2);
    EntriesText(e, [f]);
    EntriesText(f, []);
    assert [e, f] == [e] + [f] && [f] == [f] + [];
    assert RenderEntries([e, f]) == "f 12\n" + "g 2\n" + RenderEntries([]) by {
      assert e.0 + " " + "12" + "\n" == "f 12\n" && f.0 + " " + "2" + "\n" == "g 2\n";
    }
  }

  lemma EntriesText(e: (string, nat), more: seq<(string, nat)>)
    ensures RenderEntries([e] + more) == e.0 + " " + Decimal(e.1) + "\n" + RenderEntries(more)
    ensures RenderEntries([]) == ""
  {
  }

  // ------------------------------------------------------------------- replies round trip

  /** What the coordinator learns from one reply. */
  datatype Answer = Acked | Refused | Got(name: string, bytes: string)

  function StartsWith(s: string, prefix: string): bool {
    prefix <= s
  }

  /** How the coordinator reads the reply to a command: one line, then for "FILE" the
      announced number of bytes. None stands for a connection that ends too early. */
  function ReadAnswer(c: Command, stream: string): Option<(Answer, string)> {
    match SplitLine(stream)
    case None => None
    case Some((line, rest)) =>
      if c.Get? then
        (if !StartsWith(line, "FILE") then Some((Refused, rest)) else
           var (name, args) := NextWord(NextWord(line).1);
           var size := SizeArgument(args);
           if size > |rest| then None else Some((Got(name, rest[..size]), rest[size..])))
      else Some((if StartsWith(line, "OK") then Acked else Refused, rest))
  }

  function ReadAnswers(cs: seq<Command>, stream: string): Option<(seq<Answer>, string)>
    decreases |cs|
  {
    if cs == [] then Some(([], stream)) else
      match ReadAnswer(cs[0], stream)
      case None => None
      case Some((a, rest)) =>
        match ReadAnswers(cs[1..], rest)
        case None => None
        case Some((answers, left)) => Some(([a] + answers, left))
  }

  function AnswerOf(reply: Reply): Answer {
    match reply
    case Ok => Acked
    case File(name, bytes) => Got(name, bytes)
    case _ => Refused
  }

  function AnswersOf(replies: seq<Reply>): (r: seq<Answer>)
    ensures |r| == |replies| && forall k :: 0 <= k < |r| ==> r[k] == AnswerOf(replies[k])
  {
    seq(|replies|, k requires 0 <= k < |replies| => AnswerOf(replies[k]))
  }

  predicate Fits(l: Local) {
    forall p :: p in l.files ==> |l.files[p]| < SIZE_LIMIT
  }

  function FileLine(name: string, size: nat): string {
    "FILE" + " " + name + (" " + Decimal(size))
  }

  lemma FileLineParses(name: string, size: nat)
    requires IsWord(name) && size < SIZE_LIMIT
    ensures var line := FileLine(name, size);
            && '\n' !in line && line + "\n" == FileHeader(name, size) && StartsWith(line, "FILE")
            && NextWord(NextWord(line).1).0 == name && NextSize(NextWord(NextWord(line).1).1) == Some(size)
  {
    var line := FileLine(name, size);
    DecimalIsPlain(size);
    TwoWords("FILE", name, " " + Decimal(size));
    NextSizeOf(size);
    assert line[..4] == "FILE";
  }

  /** Reading what is announced by a header line and follows it. */
  lemma TakePayload(asked: string, line: string, name: string, bytes: string, rest: string)
    requires SplitLine(line + "\n" + (bytes + rest)) == Some((line, bytes + rest)) && StartsWith(line, "FILE")
    requires NextWord(NextWord(line).1).0 == name && NextSize(NextWord(NextWord(line).1).1) == Some(|bytes|)
    ensures ReadAnswer(Get(asked), line + "\n" + (bytes + rest)) == Some((Got(name, bytes), rest))
  {
    hide NextWord, NextSize, SplitLine, StartsWith;
    assert (bytes + rest)[..|bytes|] == bytes && (bytes + rest)[|bytes|..] == rest;
  }

  lemma FileAnswer(asked: string, name: string, bytes: string, rest: string)
    requires IsWord(name) && |bytes| < SIZE_LIMIT
    ensures ReadAnswer(Get(asked), Render(File(name, bytes)) + rest) == Some((Got(name, bytes), rest))
  {
    hide NextWord, NextSize, SplitLine, ReadAnswer, StartsWith;
    var line := FileLine(name, |bytes|);
    FileLineParses(name, |bytes|);
    SplitLineOf(line, bytes + rest);
    assert Render(File(name, bytes)) + rest == line + "\n" + (bytes + rest);
    TakePayload(asked, line, name, bytes, rest);
  }

  lemma ShortAnswer(c: Command, line: string, rest: string)
    requires '\n' !in line && (c.Get? ==> !StartsWith(line, "FILE"))
    ensures ReadAnswer(c, line + "\n" + rest)
            == Some((if !c.Get? && StartsWith(line, "OK") then Acked else Refused, rest))
  {
    SplitLineOf(line, rest);
  }

  lemma KeyIsWord(name: string)
    requires IsWord(name) && name[0] != '\0'
    ensures IsWord(CString(name))
  {
    var key := CString(name);
    forall k | 0 <= k < |key| ensures !IsSpace(key[k]) {
      assert key[k] == name[k];
    }
  }

  lemma GetReadsBack(l: Local, name: string, rest: string)
    requires IsWord(CString(name)) && Fits(l)
    ensures var reply := RetrieveLocal(l, CString(name));
            ReadAnswer(Get(name), Render(reply) + rest) == Some((AnswerOf(reply), rest))
  {
    hide NextWord, NextSize, SplitLine, ReadAnswer, Decimal, CString;
    var key := CString(name);
    if key in l.files {
      FileAnswer(name, key, l.files[key], rest);
    } else {
      ErrorReadsBack(Get(name), "file not found", rest);
    }
  }

  lemma ErrorReadsBack(c: Command, why: string, rest: string)
    requires '\n' !in why
    ensures ReadAnswer(c, Render(Error(why)) + rest) == Some((Refused, rest))
  {
    hide ReadAnswer, SplitLine;
    var line := "ERROR " + why;
    assert line[0] == 'E';
    ShortAnswer(c, line, rest);
    assert Render(Error(why)) + rest == line + "\n" + rest;
  }

  lemma OkReadsBack(c: Command, rest: string)
    requires !c.Get?
    ensures ReadAnswer(c, Render(Ok) + rest) == Some((Acked, rest))
  {
    hide ReadAnswer, SplitLine;
    ShortAnswer(c, "OK", rest);
    assert Render(Ok) + rest == "OK" + "\n" + rest;
  }

  lemma AnswerReadsBack(l: Local, c: Command, rest: string)
    requires WellFormed(c) && Fits(l)
    ensures ReadAnswer(c, Render(Execute(l, c).1) + rest) == Some((AnswerOf(Execute(l, c).1), rest))
  {
    hide ReadAnswer, RetrieveLocal, StoreLocal, IsWord, Render, Fits;
    if c.Get? {
      KeyIsWord(c.name);
      GetReadsBack(l, c.name, rest);
    } else if Execute(l, c).1 == Ok {
      OkReadsBack(c, rest);
    } else {
      ErrorReadsBack(c, "failed to delete file", rest);
    }
  }

  lemma ExecuteFits(l: Local, c: Command)
    requires WellFormed(c) && Fits(l)
    ensures Fits(Execute(l, c).0)
  {
  }

  /** The replies to any sequence of commands parse back one by one, with nothing left over. */
  lemma {:induction false} AnswersReadBack(l: Local, cs: seq<Command>)
    requires (forall c :: c in cs ==> WellFormed(c)) && Fits(l)
    ensures var replies := ExecuteAll(l, cs).1;
            |replies| == |cs| && ReadAnswers(cs, RenderAll(replies)) == Some((AnswersOf(replies), ""))
    decreases |cs|
  {
    hide ReadAnswer, Execute, WellFormed, Fits, AnswerOf, Render;
    if cs != [] {
      var replies := ExecuteAll(l, cs).1;
      AnswersReadBack(Execute(l, cs[0]).0, cs[1..]) by { ExecuteFits(l, cs[0]); }
      AnswerReadsBack(l, cs[0], RenderAll(replies[1..]));
      assert AnswersOf(replies) == [AnswerOf(replies[0])] + AnswersOf(replies[1..]);
    }
  }

  /** Both directions of a connection at once. */
  lemma FramingRoundTrip(l: Local, order: Order, cs: seq<Command>)
    requires (forall c :: c in cs ==> WellFormed(c)) && Fits(l)
    ensures var (l', replies) := ExecuteAll(l, cs);
            var served := Serve(l, order, EncodeAll(cs));
            && served.local == l' && served.fate == Serving
            && ReadAnswers(cs, RenderAll(served.replies)) == Some((AnswersOf(replies), ""))
  {
    ServeExecutes(l, order, cs);
    AnswersReadBack(l, cs);
  }
}
