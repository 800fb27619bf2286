/** The text of a NODE_STATUS reply: how the health check reads it, and that it reads what the node
    meant. */
module Statuses {
  import opened Wrappers
  import opened Text
  import opened Descriptors
  import opened NodeProtocol
  import opened Listings

  const LONG_MAX: int := 0x7FFF_FFFF_FFFF_FFFF
  const LONG_MIN: int := -0x8000_0000_0000_0000

  /** The total in one line. A line with another tag says nothing; a count that cannot be read, or
      does not fit, keeps the total from being read, which is then 0. */
  function ReadStatus(line: string): Option<int> {
    var (tag, args) := NextWord(line);
    if tag != "STATUS" then None else
      match NextNumber(args)
      case None => Some(0)
      case Some((count, rest)) =>
        Some(if INT_MIN <= count <= INT_MAX then IntArgument(rest, LONG_MIN, LONG_MAX) else 0)
  }

  /** What a node reports; None stands for a node that cannot be reached. */
  function Reported(reply: Option<string>): Option<int> {
    match reply
    case None => None
    case Some(text) =>
      match SplitLine(text)
      case None => None
      case Some((line, _)) => ReadStatus(line)
  }

  lemma TagRead(tag: string, args: string)
    requires IsWord(tag) && (args == "" || IsSpace(args[0]))
    ensures ReadStatus(tag + args)
            == if tag != "STATUS" then None
               else if NextNumber(args).None? || !(INT_MIN <= NextNumber(args).value.0 <= INT_MAX) then Some(0)
               else Some(IntArgument(NextNumber(args).value.1, LONG_MIN, LONG_MAX))
  {
    hide NextNumber, NextWord;
    NextWordOf(tag, args);
  }

  lemma NumbersRead(count: nat, total: nat)
    ensures NextNumber(" " + Decimal(count) + (" " + Decimal(total))) == Some((count as int, " " + Decimal(total)))
    ensures IntArgument(" " + Decimal(total), LONG_MIN, LONG_MAX) == Min(total, LONG_MAX)
  {
    hide NextNumber, Decimal;
    DecimalNext(" ", count, " " + Decimal(total));
    DecimalNext(" ", total, "");
    assert " " + Decimal(total) + "" == " " + Decimal(total);
  }

  lemma ReportIsLine(count: nat, total: nat)
    ensures var line := "STATUS" + (" " + Decimal(count) + (" " + Decimal(total)));
            '\n' !in line && Render(Report(count, total)) == line + "\n" + ""
  {
    DecimalIsPlain(count);
    DecimalIsPlain(total);
  }

  /** The report is read as what it was written for, as far as it fits. */
  lemma ReportReadsBack(count: nat, total: nat)
    ensures Reported(Some(Render(Report(count, total)))) == Some(if count <= INT_MAX then Min(total, LONG_MAX) else 0)
  {
    hide NextNumber, Decimal, ReadStatus, SplitLine, IntArgument, Render;
    var args := " " + Decimal(count) + (" " + Decimal(total));
    ReportIsLine(count, total);
    TagRead("STATUS", args);
    NumbersRead(count, total);
    SplitLineOf("STATUS" + args, "");
  }

  /** Replies that are not what a node of this kind sends. */
  lemma OtherReplies()
    ensures ReadStatus("ERROR unknown command") == None && ReadStatus("STATUS") == ReadStatus("STATUS x 12") == Some(0)
    ensures ReadStatus("STATUS -2 -12") == Some(-12)
  {
    hide ReadStatus, NextNumber;
    TagRead("ERROR", " unknown command");
    TagRead("STATUS", "");
    TagRead("STATUS", " x 12");
    TagRead("STATUS", " -2 -12");
    assert "ERROR" + " unknown command" == "ERROR unknown command" && "STATUS" + "" == "STATUS";
    assert "STATUS" + " x 12" == "STATUS x 12" && "STATUS" + " -2 -12" == "STATUS -2 -12";
    NegativeRead();
    NoNumberThere();
  }

  lemma NegativeRead()
    ensures NextNumber(" -2 -12") == Some((-2, " -12")) && NextNumber(" -12") == Some((-12, ""))
  {
    hide NextNumber;
    DecimalTexts();
    ValueOfDecimal(2);
    ValueOfDecimal(12);
    NextNumberOf(" ", "-", "2", " -12");
    NextNumberOf(" ", "-", "12", "");
    assert " " + ("-" + ("2" + " -12")) == " -2 -12" && " " + ("-" + ("12" + "")) == " -12";
  }

  lemma NoNumberThere()
    ensures NextNumber("").None? && NextNumber(" x 12").None?
  {
    SkipSpacesOf(" ", "x 12");
    assert " " + "x 12" == " x 12";
    assert "x 12"[0..] == "x 12";
  }

  /** A node that holds these files, under that cached total, answers NODE_STATUS with this text. */
  ghost predicate Tells(reply: Option<string>, files: map<string, string>, cached: int) {
    exists order: Order :: Enumerates(order(files.Keys), files.Keys)
      && reply == Some(RenderAll(Serve(Local(files, cached), order, "NODE_STATUS\n").replies))
  }

  lemma ServeStatus(l: Local, order: Order)
    ensures Serve(l, order, "NODE_STATUS\n") == Served(l, [StatusLocal(l, order)], Serving)
  {
    hide StatusLocal, ParseRequest, SplitLine;
    OneWord("NODE_STATUS");
    SplitLineOf("NODE_STATUS", "");
    assert "NODE_STATUS" + "\n" + "" == "NODE_STATUS\n";
    assert SplitLine("").None?;
    assert [StatusLocal(l, order)] + [] == [StatusLocal(l, order)];
  }

  /** From what a node holds through the text of its reply to the total the coordinator takes over:
      the cached one, but 0 from a node with more files than an int counts. */
  lemma ReplyTells(reply: Option<string>, files: map<string, string>, cached: int)
    requires Tells(reply, files, cached)
    ensures Reported(reply) == Some(if |files| <= INT_MAX then Clamp(cached, 0, LONG_MAX) else 0)
  {
    hide Serve, Render, Reported;
    var order: Order :| Enumerates(order(files.Keys), files.Keys)
      && reply == Some(RenderAll(Serve(Local(files, cached), order, "NODE_STATUS\n").replies));
    var l := Local(files, cached);
    ServeStatus(l, order);
    OneLine(StatusLocal(l, order));
    NamesCount(order(files.Keys), files.Keys);
    assert |files.Keys| == |files|;
    ReportReadsBack(|files|, if cached < 0 then 0 else cached);
  }
}
