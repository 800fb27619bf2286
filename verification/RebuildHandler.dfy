/** rebuild_metadata_from_nodes as the loops it is, proved against module Rebuild, and the state
    it leaves the server in. */
module RebuildHandler {
  import opened Wrappers
  import opened Sums
  import opened Text
  import opened Descriptors
  import Logs
  import opened ChunkNames
  import opened Load
  import opened Cluster
  import opened Invariants
  import opened Bytes
  import opened Runs
  import opened Rebuild
  import opened Restart
  import opened Listings
  import opened Coordinator

  // ------------------------------------------------------------------ chunks put in order

  lemma OrderedStep(m: map<nat, Found>, k: nat)
    requires IsMin(m, k)
    ensures Ordered(m) == [ChunkMeta(k, m[k].size, m[k].ids)] + Ordered(m - {k})
    ensures |m - {k}| < |m|
  {
    SmallerMap(m, k);
    var j := Ordered(m)[0].index;
    assert IsMin(m, j);
  }

  /** The loop over one file's chunks, in ascending order of their indices. */
  method OrderChunks(found: map<nat, Found>) returns (chunks: seq<ChunkMeta>, total: nat)
    ensures chunks == Ordered(found) && total == SumSizes(chunks)
  {
    chunks, total := [], 0;
    var rest := found;
    while rest != map[]
      invariant chunks + Ordered(rest) == Ordered(found) && total == SumSizes(chunks)
      decreases |rest|
    {
      ghost var least := MinExists(rest.Keys);
      assert IsMin(rest, least);
      var k: nat :| k in rest && forall j :: j in rest ==> k <= j;
      OrderedStep(rest, k);
      var c := ChunkMeta(k, rest[k].size, rest[k].ids);
      assert (chunks + [c])[..|chunks|] == chunks;
      chunks := chunks + [c];
      total := total + c.size;
      rest := rest - {k};
    }
  }

  /** The loop over the files found, in no particular order. */
  method FinishFiles(t: Temp) returns (meta: map<string, FileMeta>)
    ensures meta == Finish(t)
  {
    meta := map[];
    var todo := t.Keys;
    while todo != {}
      invariant todo <= t.Keys && meta.Keys == t.Keys - todo
      invariant forall f :: f in meta ==> meta[f] == FileMeta(SumSizes(Ordered(t[f])), Ordered(t[f]))
      decreases |todo|
    {
      var f :| f in todo;
      var chunks, total := OrderChunks(t[f]);
      meta := meta[f := FileMeta(total, chunks)];
      todo := todo - {f};
    }
  }

  // ------------------------------------------------------------------------ reading lines

  /** All totals say what has been listed so far. */
  ghost predicate Counted(bytes: array<int>, log: seq<Entry>)
    reads bytes
  {
    forall i: nat {:trigger bytes[i]} :: i < bytes.Length ==> bytes[i] == BytesListed(log, i)
  }

  lemma CollectSnoc(log: seq<Entry>, e: Entry)
    ensures Collect(log + [e]) == if Collect(log).None? then None else Absorb(Collect(log).value, e)
    ensures forall i :: BytesListed(log + [e], i) == BytesListed(log, i) + if e.node == i then e.size else 0
  {
    var all := log + [e];
    assert all[..|all| - 1] == log && all[|all| - 1] == e;
  }

  /** What one line does to the temporary map. */
  method AbsorbLine(t: Temp, node: nat, name: string, size: nat) returns (threw: bool, after: Temp)
    ensures Absorb(t, Entry(node, name, size)) == if threw then None else Some(after)
  {
    threw, after := false, t;
    match ParseChunkName(name) {
      case NotAChunk =>
      case Malformed => threw := true;
      case Chunk(file, index) =>
        if index >= 0 {
          var inner := if file in t then t[file] else map[];
          after := t[file := inner[index := Found(size, IdsAt(t, file, index) + [node])]];
        }
    }
  }

  /** What one line does to map and totals. */
  method AbsorbText(node: nat, line: string, t: Temp, bytes: array<int>, ghost log: seq<Entry>)
    returns (threw: bool, after: Temp)
    requires node < bytes.Length && Collect(log) == Some(t) && Counted(bytes, log)
    modifies bytes
    ensures Collect(log + Tag(node, ListedLine(line))) == if threw then None else Some(after)
    ensures !threw ==> Counted(bytes, log + Tag(node, ListedLine(line)))
  {
    hide ParseChunkName, NextWord, SizeArgument, Absorb, Collect, BytesListed;
    threw, after := false, t;
    var name, rest := NextWord(line).0, NextWord(line).1;
    var size := SizeArgument(rest);
    if name == "" {
      assert log + Tag(node, ListedLine(line)) == log;
      return;
    }
    assert Tag(node, [(name, size)]) == [Entry(node, name, size)];
    CollectSnoc(log, Entry(node, name, size));
    threw, after := AbsorbLine(t, node, name, size);
    if !threw {
      bytes[node] := bytes[node] + size;
    }
  }

  /** One node's reply, line by line as far as its header says or the stream goes. */
  method ReadListing(node: nat, fd: Descriptor, t: Temp, bytes: array<int>, ghost log: seq<Entry>)
    returns (threw: bool, after: Temp, ghost read: seq<(string, nat)>)
    requires node < bytes.Length && Collect(log) == Some(t) && Counted(bytes, log)
    modifies bytes, fd`incoming
    ensures Collect(log + Tag(node, read)) == if threw then None else Some(after)
    ensures !threw ==> Counted(bytes, log + Tag(node, read))
    ensures if threw then read <= Listed(old(fd.incoming)) else read == Listed(old(fd.incoming))
  {
    hide ListedLine, Announced, Collect, Counted, SplitLine, Tag;
    threw, after, read := false, t, [];
    TagMore(log, node, [], []);
    var ok, header := RecvLine(fd);
    if !ok {
      return;
    }
    var count := Announced(header);
    ghost var lines := ReadEntries(fd.incoming, count);
    var i := 0;
    while i < count
      invariant 0 <= i <= count && read + ReadEntries(fd.incoming, count - i) == lines
      invariant Collect(log + Tag(node, read)) == Some(after) && Counted(bytes, log + Tag(node, read))
    {
      ghost var later := ReadEntries(fd.incoming, count - i);
      var line;
      ok, line := RecvLine(fd);
      if !ok {
        break;
      }
      assert read + (ListedLine(line) + ReadEntries(fd.incoming, count - i - 1)) == lines;
      threw, after := AbsorbText(node, line, after, bytes, log + Tag(node, read));
      TagMore(log, node, read, ListedLine(line));
      read := read + ListedLine(line);
      if threw {
        return;
      }
      i := i + 1;
    }
  }

  lemma TagMore(log: seq<Entry>, node: nat, a: seq<(string, nat)>, b: seq<(string, nat)>)
    ensures log + Tag(node, a) + Tag(node, b) == log + Tag(node, a + b)
    ensures log + Tag(node, []) == log
  {
    assert Tag(node, a + b) == Tag(node, a) + Tag(node, b);
  }

  lemma {:induction false} CollectFails(a: seq<Entry>, b: seq<Entry>)
    requires Collect(a).None?
    ensures Collect(a + b).None?
    decreases |b|
  {
    if b == [] {
      assert a + b == a;
    } else {
      CollectFails(a, b[..|b| - 1]);
      assert a + b == (a + b[..|b| - 1]) + [b[|b| - 1]];
      CollectSnoc(a + b[..|b| - 1], b[|b| - 1]);
    }
  }

  lemma {:induction false} LogPrefix(listings: seq<seq<(string, nat)>>, m: nat, n: nat)
    requires m <= n <= |listings|
    ensures |Log(listings, m)| <= |Log(listings, n)| && Log(listings, n)[..|Log(listings, m)|] == Log(listings, m)
    decreases n
  {
    if m < n {
      LogPrefix(listings, m, n - 1);
    }
  }

  lemma TagPrefix(node: nat, entries: seq<(string, nat)>, read: seq<(string, nat)>)
    requires read <= entries
    ensures |read| <= |Tag(node, entries)| && Tag(node, read) == Tag(node, entries)[..|read|]
  {
  }

  /** A line that throws stops everything. */
  lemma LogFails(listings: seq<seq<(string, nat)>>, node: nat, read: seq<(string, nat)>)
    requires node < |listings| && read <= listings[node]
    requires Collect(Log(listings, node) + Tag(node, read)).None?
    ensures Collect(Log(listings, |listings|)).None?
  {
    hide Collect, Tag;
    LogPrefix(listings, node + 1, |listings|);
    TagPrefix(node, listings[node], read);
    assert Log(listings, node + 1) == Log(listings, node) + Tag(node, listings[node]);
    PrefixFails(Log(listings, node), Tag(node, listings[node]), |read|, Log(listings, |listings|));
  }

  lemma PrefixFails(log: seq<Entry>, tags: seq<Entry>, read: nat, all: seq<Entry>)
    requires read <= |tags| && Collect(log + tags[..read]).None?
    requires |log + tags| <= |all| && all[..|log + tags|] == log + tags
    ensures Collect(all).None?
  {
    var a := log + tags[..read];
    assert a == all[..|a|];
    assert all == a + all[|a|..];
    CollectFails(a, all[|a|..]);
  }

  lemma NothingRead(bytes: array<int>)
    requires forall i :: 0 <= i < bytes.Length ==> bytes[i] == 0
    ensures Collect([]) == Some(map[]) && Counted(bytes, [])
  {
  }

  /** The loop over the nodes; one that cannot be reached is skipped. */
  method ReadAllListings(replies: seq<Option<string>>, bytes: array<int>) returns (threw: bool, t: Temp)
    requires bytes.Length == |replies| && forall i :: 0 <= i < bytes.Length ==> bytes[i] == 0
    modifies bytes
    ensures Collect(Log(AllListed(replies), |replies|)) == if threw then None else Some(t)
    ensures !threw ==> Counted(bytes, Log(AllListed(replies), |replies|))
  {
    hide Collect, Counted, Tag, Listed;
    NothingRead(bytes);
    t, threw := map[], false;
    ghost var listings := AllListed(replies);
    var node := 0;
    while node < |replies|
      invariant 0 <= node <= |replies|
      invariant Collect(Log(listings, node)) == Some(t) && Counted(bytes, Log(listings, node))
      modifies bytes
    {
      assert listings[node] == ListedBy(replies[node]);
      ghost var read;
      if replies[node].Some? {
        var wire := new Logs.Log();
        var fd := new Descriptor(replies[node].value, wire);
        threw, t, read := ReadListing(node, fd, t, bytes, Log(listings, node));
        if threw {
          LogFails(listings, node, read);
          return;
        }
      } else {
        TagMore(Log(listings, node), node, [], []);
      }
      node := node + 1;
    }
  }

  // ------------------------------------------------------------------- the state it leaves

  ghost predicate FoundBelow(t: Temp, n: nat) {
    forall f, k, i :: f in t && k in t[f] && i in t[f][k].ids ==> i < n
  }

  lemma {:induction false} CollectBelow(log: seq<Entry>, n: nat)
    requires Collect(log).Some? && forall e :: e in log ==> e.node < n
    ensures FoundBelow(Collect(log).value, n)
    decreases |log|
  {
    if log != [] {
      assert log[|log| - 1] in log;
      CollectBelow(log[..|log| - 1], n);
    }
  }

  lemma {:induction false} LogBelow(listings: seq<seq<(string, nat)>>, m: nat)
    requires m <= |listings|
    ensures forall e :: e in Log(listings, m) ==> e.node < m
  {
    if m > 0 {
      LogBelow(listings, m - 1);
    }
  }

  lemma FinishShaped(t: Temp, cfg: Config)
    requires FoundBelow(t, cfg.nodes)
    ensures MetaShaped(Finish(t), cfg)
  {
    var meta := Finish(t);
    forall f, x | f in meta && x in Flatten(meta[f].chunks) ensures x.node < cfg.nodes {
      FlattenMembers(meta[f].chunks);
      var k :| 0 <= k < |meta[f].chunks| && x.node in meta[f].chunks[k].ids;
      OrderedLists(t[f]);
      assert meta[f].chunks[k] in meta[f].chunks;
    }
  }

  /** A server that has just read these totals and this metadata off its nodes. */
  ghost function Started(cfg: Config, meta: map<string, FileMeta>, disks: Disks, bytes: seq<int>): State {
    State(cfg, meta, {}, FreshLoad(bytes), {}, disks, map[], map[], map[], map[], {},
          seq(|bytes|, i requires 0 <= i < |bytes| => bytes[i] - Committed(meta, i)), map[])
  }

  lemma StartedIsStartUp(cfg: Config, meta: map<string, FileMeta>, disks: Disks, bytes: seq<int>)
    requires cfg.nodes > 0 && cfg.replicas > 0 && cfg.chunk > 0
    requires |bytes| == |disks| == cfg.nodes && MetaShaped(meta, cfg)
    ensures StartUp(Started(cfg, meta, disks, bytes)) && Inv(Started(cfg, meta, disks, bytes))
  {
    FreshLoadAgrees(bytes);
    StartUpInv(Started(cfg, meta, disks, bytes));
  }

  /** rebuild_metadata_from_nodes at start-up. Unless a listed name makes it throw, the metadata
      is what module Rebuild says of the lines the replies hold, the totals are the listed bytes, the index is
      fresh, and the server is in a state that runs may start from. */
  method RebuildMetadata(server: Server, replies: seq<Option<string>>) returns (threw: bool)
    requires server.cfg.nodes > 0 && server.cfg.replicas > 0 && server.cfg.chunk > 0
    requires server.index.nodeBytes.Length == |replies| == |server.disks| == server.cfg.nodes
    requires server.pendingUploads == {} && server.deadNodes == {}
    modifies server, server.index, server.index.nodeBytes
    ensures threw <==> Collect(Log(AllListed(replies), |replies|)).None?
    ensures !threw ==>
              && server.Valid() && StartUp(server.model) && Inv(server.model) && server.disks == old(server.disks)
              && server.fileMetadata == Finish(Collect(Log(AllListed(replies), |replies|)).value)
              && Counted(server.index.nodeBytes, Log(AllListed(replies), |replies|))
  {
    var bytes := server.index.nodeBytes;
    for i := 0 to bytes.Length
      invariant forall j :: 0 <= j < i ==> bytes[j] == 0
      modifies bytes
    {
      bytes[i] := 0;
    }
    var t;
    threw, t := ReadAllListings(replies, bytes);
    if threw {
      return;
    }
    server.fileMetadata := FinishFiles(t);
    server.index.Refill();
    LogBelow(AllListed(replies), |replies|);
    CollectBelow(Log(AllListed(replies), |replies|), |replies|);
    FinishShaped(t, server.cfg);
    server.model := Started(server.cfg, server.fileMetadata, server.disks, bytes[..]);
    StartedIsStartUp(server.cfg, server.fileMetadata, server.disks, bytes[..]);
  }
}
