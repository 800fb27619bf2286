/** The text of a NODE_LIST reply: how the coordinator reads it at start-up, and that it reads what
    the node meant. */
module Listings {
  import opened Wrappers
  import opened Text
  import opened Descriptors
  import opened NodeProtocol
  import opened Cluster
  import opened Runs
  import opened Rebuild
  import opened Restart
  import opened AfterRestart

  /** One line: a name and a size. A line without a name says nothing. */
  function ListedLine(line: string): seq<(string, nat)> {
    var (name, rest) := NextWord(line);
    if name == "" then [] else [(name, SizeArgument(rest))]
  }

  /** Up to `count` lines, or as many as arrive. */
  function ReadEntries(stream: string, count: nat): seq<(string, nat)>
    decreases count
  {
    if count == 0 then [] else
      match SplitLine(stream)
      case None => []
      case Some((line, rest)) => ListedLine(line) + ReadEntries(rest, count - 1)
  }

  /** The count a header announces. */
  function Announced(header: string): nat {
    CountArgument(NextWord(header).1)
  }

  /** The whole reply. */
  function Listed(stream: string): seq<(string, nat)> {
    match SplitLine(stream)
    case None => []
    case Some((header, rest)) => ReadEntries(rest, Announced(header))
  }

  /** What all nodes list; None stands for a node that cannot be reached. */
  function AllListed(replies: seq<Option<string>>): (r: seq<seq<(string, nat)>>)
    ensures |r| == |replies|
    ensures forall i :: 0 <= i < |r| ==> r[i] == ListedBy(replies[i])
  {
    seq(|replies|, i requires 0 <= i < |replies| => ListedBy(replies[i]))
  }

  function ListedBy(reply: Option<string>): seq<(string, nat)> {
    if reply.Some? then Listed(reply.value) else []
  }

  /** Lines and headers that are not what a node sends: a missing or bad size is 0, a line of blanks
      says nothing, and a header without a positive count announces none. */
  lemma OddLines(name: string, junk: string, blanks: string)
    requires IsWord(name) && IsBlank(blanks) && (junk == "" || (IsWord(junk) && NextNumber(junk).None?))
    ensures ListedLine(name + " " + junk) == [(name, 0)] && ListedLine(blanks) == []
    ensures Announced(name + " " + junk) == Announced(name + " -12") == 0
  {
    hide NextNumber, NextWord;
    JunkIsNoNumber(junk);
    NextWordOf(name, " " + junk);
    NextWordOf(name, " -12");
    NextWordSplits(blanks, "", "");
    assert name + " " + junk == name + (" " + junk);
    assert blanks == blanks + "" + "";
    MinusTwelve();
  }

  lemma JunkIsNoNumber(junk: string)
    requires junk == "" || (IsWord(junk) && NextNumber(junk).None?)
    ensures NextNumber(" " + junk).None?
  {
    if junk == "" {
      assert SkipSpaces(" ") == SkipSpaces(" "[1..]) == "";
      assert " " + junk == " ";
    } else {
      StoiAfterSpace(junk);
    }
  }

  lemma MinusTwelve()
    ensures NextNumber(" -12") == Some((-12, ""))
  {
    hide NextNumber;
    TwelveReads(" ", "-", "");
    assert " " + ("-" + ("12" + "")) == " -12";
  }

  // ------------------------------------------------------------------------ round trip

  predicate Sayable(entries: seq<(string, nat)>) {
    forall e :: e in entries ==> IsWord(e.0) && e.1 < SIZE_LIMIT
  }

  lemma LineReadsBack(name: string, size: nat)
    requires IsWord(name) && size < SIZE_LIMIT
    ensures var line := name + " " + Decimal(size);
            '\n' !in line && ListedLine(line) == [(name, size)]
  {
    DecimalIsPlain(size);
    NextWordOf(name, " " + Decimal(size));
    NextSizeOf(size);
    assert name + " " + Decimal(size) == name + (" " + Decimal(size));
  }

  lemma EntryReadsBack(entries: seq<(string, nat)>, rest: string, count: nat)
    requires entries != [] && Sayable(entries) && count > 0
    ensures ReadEntries(RenderEntries(entries) + rest, count)
            == [entries[0]] + ReadEntries(RenderEntries(entries[1..]) + rest, count - 1)
  {
    hide ListedLine, SplitLine, IsWord;
    var line := entries[0].0 + " " + Decimal(entries[0].1);
    var later := RenderEntries(entries[1..]) + rest;
    LineReadsBack(entries[0].0, entries[0].1);
    SplitLineOf(line, later);
    assert RenderEntries(entries) + rest == line + "\n" + later;
  }

  /** The announced number of lines is read, and nothing behind them. */
  lemma {:induction false} EntriesReadBack(entries: seq<(string, nat)>, rest: string)
    requires Sayable(entries)
    ensures ReadEntries(RenderEntries(entries) + rest, |entries|) == entries
    decreases |entries|
  {
    hide ListedLine, SplitLine, IsWord;
    if entries != [] {
      EntryReadsBack(entries, rest, |entries|);
      EntriesReadBack(entries[1..], rest);
    }
  }

  /** A reply that breaks off counts as far as it got. */
  lemma {:induction false} CutEntries(entries: seq<(string, nat)>, missing: nat, rest: string)
    requires Sayable(entries) && '\n' !in rest
    ensures ReadEntries(RenderEntries(entries) + rest, |entries| + missing) == entries
    decreases |entries|
  {
    hide ListedLine, SplitLine, IsWord;
    if entries == [] {
      assert RenderEntries(entries) + rest == rest;
    } else {
      EntryReadsBack(entries, rest, |entries| + missing);
      CutEntries(entries[1..], missing, rest);
    }
  }

  lemma HeaderReadsBack(n: nat)
    requires n <= INT_MAX
    ensures '\n' !in "LIST " + Decimal(n) && Announced("LIST " + Decimal(n)) == n
  {
    var d := Decimal(n);
    DecimalIsPlain(n);
    assert IsWord(d) by {
      forall k | 0 <= k < |d| ensures !IsSpace(d[k]) {
        assert IsDigit(d[k]);
      }
    }
    NextWordOf("LIST", " " + d);
    assert "LIST " + d == "LIST" + (" " + d);
    StoiAfterSpace(d);
    StoiOfDecimal(n);
  }

  /** The reply is read as the listing it was written for. */
  lemma ListingReadsBack(entries: seq<(string, nat)>)
    requires Sayable(entries) && |entries| <= INT_MAX
    ensures Listed(Render(Listing(entries))) == entries
  {
    hide ReadEntries, SplitLine, Announced, Sayable;
    var header, rest := "LIST " + Decimal(|entries|), RenderEntries(entries);
    HeaderReadsBack(|entries|);
    SplitLineOf(header, rest);
    assert Render(Listing(entries)) == header + "\n" + rest;
    EntriesReadBack(entries, "");
    assert rest + "" == rest;
  }

  // --------------------------------------------------------------------- from the disks

  /** The directory iterator yields every file once, in some order. */
  ghost predicate Enumerates(names: seq<string>, files: set<string>) {
    && (forall a, b :: 0 <= a < b < |names| ==> names[a] != names[b])
    && (forall n :: n in names <==> n in files)
  }

  predicate Listable(disk: map<string, string>) {
    |disk| <= INT_MAX && forall p :: p in disk ==> IsWord(p) && |disk[p]| < SIZE_LIMIT
  }

  lemma {:induction false} EntriesAre(files: map<string, string>, names: seq<string>)
    requires forall n :: n in names ==> n in files
    ensures var es := Entries(files, names);
            |es| == |names| && forall k :: 0 <= k < |es| ==> es[k] == (names[k], |files[names[k]]|)
    decreases |names|
  {
    if names != [] {
      EntriesAre(files, names[1..]);
    }
  }

  lemma {:induction false} NamesCount(names: seq<string>, files: set<string>)
    requires Enumerates(names, files)
    ensures |names| == |files|
    decreases |names|
  {
    if names == [] {
      assert files == {};
    } else {
      var last := names[|names| - 1];
      var init := names[..|names| - 1];
      assert last in files && names == init + [last];
      NamesCount(init, files - {last});
    }
  }

  lemma EntriesList(files: map<string, string>, names: seq<string>)
    requires Enumerates(names, files.Keys)
    ensures Lists(Entries(files, names), files) && |Entries(files, names)| == |files|
    ensures Listable(files) ==> Sayable(Entries(files, names))
  {
    var es := Entries(files, names);
    EntriesAre(files, names);
    NamesCount(names, files.Keys);
    assert |files.Keys| == |files|;
    forall n | n in files ensures (n, |files[n]|) in es {
      var k :| 0 <= k < |names| && names[k] == n;
      assert es[k] == (n, |files[n]|);
    }
  }

  /** A node that holds these files answers NODE_LIST with this text. */
  ghost predicate Answers(reply: Option<string>, disk: map<string, string>) {
    exists cached: int, order: Order :: Enumerates(order(disk.Keys), disk.Keys)
      && reply == Some(RenderAll(Serve(Local(disk, cached), order, "NODE_LIST\n").replies))
  }

  lemma ServeList(l: Local, order: Order)
    ensures Serve(l, order, "NODE_LIST\n") == Served(l, [ListLocal(l, order)], Serving)
  {
    hide ListLocal, ParseRequest, SplitLine;
    OneWord("NODE_LIST");
    SplitLineOf("NODE_LIST", "");
    assert "NODE_LIST" + "\n" + "" == "NODE_LIST\n";
    assert SplitLine("").None?;
    assert [ListLocal(l, order)] + [] == [ListLocal(l, order)];
  }

  /** From disk to text to listing. */
  lemma AnswerLists(reply: Option<string>, disk: map<string, string>)
    requires Answers(reply, disk) && Listable(disk)
    ensures Lists(ListedBy(reply), disk)
  {
    hide Serve, Listed, Render, Lists, Listable;
    var cached: int, order: Order :| Enumerates(order(disk.Keys), disk.Keys)
      && reply == Some(RenderAll(Serve(Local(disk, cached), order, "NODE_LIST\n").replies));
    var listing := ListLocal(Local(disk, cached), order);
    ServeList(Local(disk, cached), order);
    OneLine(listing);
    EntriesList(disk, order(disk.Keys));
    SmallEnough(disk);
    ListingReadsBack(Entries(disk, order(disk.Keys)));
  }

  lemma SmallEnough(disk: map<string, string>)
    requires Listable(disk)
    ensures |disk| <= INT_MAX
  {
  }

  lemma {:induction false} AnswersListAll(replies: seq<Option<string>>, disks: Disks, m: nat)
    requires |replies| == |disks| && m <= |disks|
    requires forall i :: 0 <= i < m ==> Answers(replies[i], disks[i]) && Listable(disks[i])
    ensures ListsAll(AllListed(replies), disks, m)
    decreases m
  {
    if m > 0 {
      AnswerLists(replies[m - 1], disks[m - 1]);
      AnswersListAll(replies, disks, m - 1);
    }
  }

  /** Restart from the text the nodes send: from any settled state that a run can reach, the
      server comes back with the same files under the same contents, without drift, in a state
      that runs may start from. */
  lemma RestartFromReplies(s: State, replies: seq<Option<string>>)
    requires Reachable(s) && Settled(s) && |replies| == |s.disks|
    requires forall i :: 0 <= i < |s.disks| ==> Answers(replies[i], s.disks[i]) && Listable(s.disks[i])
    ensures Collect(Log(AllListed(replies), |s.disks|)).Some?
    ensures var t := Rebuilt(s, AllListed(replies));
            && StartUp(t) && Reachable(t)
            && t.meta.Keys == s.meta.Keys && (forall f :: f in s.meta ==> SameFile(t.meta[f], s.meta[f]))
            && (forall i :: 0 <= i < |t.drift| ==> t.drift[i] == 0)
  {
    AnswersListAll(replies, s.disks, |s.disks|);
    RestartIsStartUp(s, AllListed(replies));
  }
}
