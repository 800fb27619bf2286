/** Concrete sessions, from an empty server object to the reply, in which the code does less than
    a user would expect. */
module Examples {
  import opened Wrappers
  import opened Text
  import Logs
  import opened Descriptors
  import opened NodeProtocol
  import opened ChunkNames
  import opened Chunking
  import opened Load
  import opened Cluster
  import opened Invariants
  import opened Replication
  import opened Runs
  import opened Steps
  import opened Contents
  import opened Resilience
  import opened Rebuild
  import opened Restart
  import opened Listings
  import opened Coordinator
  import opened RebuildHandler
  import opened DownloadHandler
  import opened Maintenance
  import UploadHandler

  /** A server that has just been started against nodes that reply like this. */
  method Booted(cfg: Config, disks: Disks, replies: seq<Option<string>>) returns (server: Coordinator.Server)
    requires cfg.nodes > 0 && cfg.replicas > 0 && cfg.chunk > 0 && |replies| == |disks| == cfg.nodes
    requires Collect(Log(AllListed(replies), |replies|)).Some?
    ensures fresh(server) && fresh(server.index) && fresh(server.index.nodeBytes)
    ensures server.Valid() && StartUp(server.model) && Inv(server.model) && server.cfg == cfg && server.disks == disks
    ensures server.fileMetadata == Finish(Collect(Log(AllListed(replies), |replies|)).value)
  {
    hide Collect, AllListed, Log, Finish, StartUp, Inv;
    server := new Coordinator.Server(cfg, disks);
    var threw := RebuildMetadata(server, replies);
  }

  lemma TwoReplies(replies: seq<Option<string>>, a: seq<(string, nat)>)
    requires |replies| == 2 && ListedBy(replies[0]) == a && ListedBy(replies[1]) == []
    ensures Log(AllListed(replies), 2) == Tag(0, a)
  {
    hide ListedBy;
    var listings := AllListed(replies);
    assert listings[0] == a && listings[1] == [];
    assert Log(listings, 0) == [] && Log(listings, 1) == Log(listings, 0) + Tag(0, a);
    assert Log(listings, 2) == Log(listings, 1) + Tag(1, []);
  }

  // ------------------------------------------------------------------ reduced replication

  lemma NothingListed()
    ensures Listed("LIST 0\n") == []
  {
    ListingReadsBack([]);
    assert Render(Listing([])) == "LIST 0\n";
  }

  /** Two replicas are wanted, one of two nodes is alive: an upload succeeds without a warning,
      and a chunk is on one node only. */
  method ReducedWithoutWarning() returns (server: Coordinator.Server, reply: UploadHandler.UploadReply)
    ensures server.cfg.replicas == 2 && reply == UploadHandler.Stored(false, false)
    ensures "f" in server.fileMetadata && exists c :: c in server.fileMetadata["f"].chunks && |c.ids| < 2
  {
    hide Listed, Inv, Tried;
    var replies := [Some("LIST 0\n"), Some("LIST 0\n")];
    NothingListed();
    TwoReplies(replies, []);
    assert Collect([]) == Some(map[]);
    server := Booted(Config(2, 2, 1), [map[], map[]], replies);
    ghost var m0, es := server.model, [];
    var killed;
    killed, es := HandleKill(server, 1, true);
    RunKeepsInv(m0, es);
    reply := UploadToOne(server);
  }

  method UploadToOne(server: Coordinator.Server) returns (reply: UploadHandler.UploadReply)
    requires server.Valid() && Inv(server.model) && server.cfg == Config(2, 2, 1) && server.deadNodes == {1}
    requires server.model.uploads == map[] && server.model.deletions == map[]
    requires server.fileMetadata == map[] && server.pendingUploads == {}
    modifies server, server.index, server.index.nodeBytes
    ensures reply == UploadHandler.Stored(false, false)
    ensures "f" in server.fileMetadata && exists c :: c in server.fileMetadata["f"].chunks && |c.ids| < 2
  {
    hide Inv, UploadHandler.Cleaned, NoOrphans, FileFaithful, UploadHandler.Finished, UploadHandler.GaveUp, Exactly;
    hide Follows;
    OneLeft(server.model);
    var wire := new Logs.Log();
    var client := new Descriptor("x", wire);
    ghost var tr, es;
    reply, tr, es := UploadHandler.HandleUpload(server, 0, client, "f", 1, {}, (k, i) => Answer(true, None),
                                                (k, i) => Some(Answer(true, None)), Alone);
  }

  lemma OneLeft(s: State)
    requires Sound(s) && s.cfg.nodes == 2 && s.dead == {1}
    ensures Tried(s) - {} == {0}
  {
    IndexVisitsLiveNodes(s);
  }

  // --------------------------------------------------------------- killed between two blocks

  /** The upload of "x" as "f" as far as its connections, and a kill right after them. */
  method ConnectedThenKilled(server: Coordinator.Server) returns (fds: set<nat>)
    requires server.Valid() && PendingExact(server.model.pending, server.model.uploads)
    requires server.cfg == Config(2, 2, 1) && server.deadNodes == {}
    requires server.model.uploads == map[] && server.model.deletions == map[]
    requires server.fileMetadata == map[] && server.pendingUploads == {}
    modifies server, server.index, server.index.nodeBytes
    ensures server.Valid() && fds == {0, 1} && server.deadNodes == {1} && server.fileMetadata == map[]
    ensures 0 in server.model.uploads && AtFirstChunk(server.model.uploads[0])
  {
    hide Shaped, IndexAgrees, NoOrphans;
    var admitted, prior := server.AdmitUpload(0, "f", "x");
    BothTried(server.model);
    fds := server.ConnectAll(0, {});
    server.KillNode(1);
  }

  lemma BothTried(s: State)
    requires Sound(s) && s.cfg.nodes == 2 && s.dead == {}
    ensures Tried(s) - {} == {0, 1} && Tried(s) * {} == {}
  {
    IndexVisitsLiveNodes(s);
  }

  ghost predicate AtFirstChunk(u: Upload) {
    && u.phase.Receiving? && u.name == "f" && u.content == "x" && u.prior == None && u.fds == {0, 1}
    && u.chunks == [] && !u.reduced && u.failed == {}
  }

  /** Its only chunk: the bytes are reserved on the node that is left. */
  method ReserveOnOne(server: Coordinator.Server, fds: set<nat>) returns (chosen: seq<nat>)
    requires server.Valid() && server.cfg == Config(2, 2, 1) && server.deadNodes == {1} && fds == {0, 1}
    requires 0 in server.model.uploads && AtFirstChunk(server.model.uploads[0]) && server.fileMetadata == map[]
    modifies server, server.index, server.index.nodeBytes
    ensures server.Valid() && server.fileMetadata == map[] && chosen == [0]
    ensures 0 in server.model.uploads && AtFirstChunk(server.model.uploads[0].(phase := Receiving))
    ensures server.model.uploads[0].phase == Storing([0], map[])
  {
    hide Shaped, IndexAgrees, LeastLoaded;
    PieceIs(server.model.uploads[0], server.cfg);
    chosen := server.SelectNodes(0, fds);
    OnlyChoice(server.index.nodeBytes[..], fds - server.deadNodes, chosen);
    server.ReserveBytes(0, ChunkMeta(0, 1, chosen));
  }

  method StoreOnOne(server: Coordinator.Server, chosen: seq<nat>, fds: set<nat>)
    returns (committed: seq<nat>, left: set<nat>)
    requires server.Valid() && server.cfg == Config(2, 2, 1) && fds == {0, 1} && chosen == [0]
    requires 0 in server.model.uploads && AtFirstChunk(server.model.uploads[0].(phase := Receiving))
    requires server.model.uploads[0].phase == Storing([0], map[]) && server.fileMetadata == map[]
    modifies server, server.index, server.index.nodeBytes
    ensures server.Valid() && committed == [0] && left == fds && server.fileMetadata == map[]
    ensures 0 in server.model.uploads && AtSweep(server.model.uploads[0])
  {
    hide Shaped, IndexAgrees;
    PieceIs(server.model.uploads[0], server.cfg);
    FirstName();
    DisksThere(server.model);
    server.StoreReplica(0, "f_chunk0", "x", 0, Answer(true, None));
    GoodIs();
    committed, left := server.SettleChunk(0, chosen, map[0 := true], ChunkMeta(0, 1, []), fds);
  }

  ghost predicate AtSweep(u: Upload) {
    && u.phase == Sweeping(0) && u.name == "f" && u.content == "x" && u.prior == None
    && u.chunks == [ChunkMeta(0, 1, [0])] && !Warned(u)
  }

  lemma PieceIs(u: Upload, cfg: Config)
    requires u.content == "x" && u.chunks == [] && cfg.chunk == 1
    ensures Piece(u, cfg) == "x" && Offset(1, 1, 1) == 1
  {
  }

  lemma FirstName()
    ensures ChunkName("f", 0) == "f_chunk0"
  {
  }

  lemma DisksThere(s: State)
    requires Shaped(s)
    ensures |s.disks| == s.cfg.nodes
  {
  }

  lemma GoodIs()
    ensures Answered([0], map[0 := true], true) == [0] && Answered([0], map[0 := true], false) == []
  {
    assert [0][1..] == [];
    assert Answered([], map[0 := true], true) == [] && Answered([], map[0 := true], false) == [];
  }

  lemma OnlyChoice(bytes: seq<int>, live: set<nat>, chosen: seq<nat>)
    requires live == {0} && LeastLoaded(bytes, live, 2, chosen)
    ensures chosen == [0]
  {
    assert |chosen| == 1;
    assert chosen[0] in chosen;
  }

  /** Two replicas are wanted and both nodes are connected; another client kills one of them before
      the first chunk. The upload succeeds without a warning, and its chunk is on one node. */
  method KilledInBetween() returns (server: Coordinator.Server, fds: set<nat>, warned: bool)
    ensures server.cfg.replicas == 2 && |fds| == 2 && !warned
    ensures server.fileMetadata == map["f" := FileMeta(1, [ChunkMeta(0, 1, [0])])]
  {
    hide Listed, Inv, Tried, Shaped, IndexAgrees, StartUp;
    var replies := [Some("LIST 0\n"), Some("LIST 0\n")];
    NothingListed();
    TwoReplies(replies, []);
    assert Collect([]) == Some(map[]);
    server := Booted(Config(2, 2, 1), [map[], map[]], replies);
    FreshStart(server.model);
    fds := ConnectedThenKilled(server);
    var chosen := ReserveOnOne(server, fds);
    var committed, left := StoreOnOne(server, chosen, fds);
    warned := |committed| < server.cfg.replicas && left != fds;
    server.CommitUpload(0, "f", None, FileMeta(1, [ChunkMeta(0, 1, committed)]));
  }

  lemma FreshStart(s: State)
    requires StartUp(s) && Inv(s)
    ensures s.uploads == map[] && s.deletions == map[] && s.pending == {} && s.dead == {}
    ensures PendingExact(s.pending, s.uploads)
  {
  }

  // -------------------------------------------------------------------------- lost suffix

  lemma FirstChunkListed()
    ensures Listed("LIST 1\nf_chunk0 1\n") == [("f_chunk0", 1)]
  {
    hide Listed, IsWord;
    assert IsWord("f_chunk0") by { Plain(); }
    var entries := [("f_chunk0", 1 as nat)];
    ListingReadsBack(entries);
    assert entries[1..] == [];
    assert RenderEntries(entries) == "f_chunk0" + " " + Decimal(1) + "\n" + "";
    assert Render(Listing(entries)) == "LIST 1\nf_chunk0 1\n";
  }

  lemma Plain()
    ensures IsWord("f_chunk0")
  {
  }

  lemma FirstChunkCollected()
    ensures Collect(Tag(0, [("f_chunk0", 1)])) == Some(map["f" := map[0 := Found(1, [0])]])
  {
    hide ParseChunkName;
    var e := Entry(0, "f_chunk0", 1);
    assert Tag(0, [("f_chunk0", 1)]) == [e];
    ChunkNameRoundTrip("f", 0);
    assert ChunkName("f", 0) == "f_chunk0";
    var none: Temp := map[];
    assert IdsAt(none, "f", 0) + [0] == [0];
    assert Absorb(none, e) == Some(map["f" := map[0 := Found(1, [0])]]);
    assert [e][..0] == [];
    assert Collect([e]) == Absorb(none, e);
  }

  lemma FirstChunkFinished()
    ensures var found: map<nat, Found> := map[0 := Found(1, [0])];
            Finish(map["f" := found]) == map["f" := FileMeta(1, [ChunkMeta(0, 1, [0])])]
  {
    var found: map<nat, Found> := map[0 := Found(1, [0])];
    assert IsMin(found, 0);
    OrderedStep(found, 0);
    assert found - {0} == map[];
    assert Ordered(found) == [ChunkMeta(0, 1, [0])];
    assert [ChunkMeta(0, 1, [0])][..0] == [];
  }

  /** "xy" is stored as two chunks on two nodes, and the node that holds the second cannot be
      reached at start-up: a download announces one byte and sends "x", without an error. */
  method LostSuffix() returns (reply: DownloadReply, emitted: string)
    ensures reply == Sending(1) && emitted == "x"
  {
    hide Listed, Collect, Finish, Inv;
    var replies := [Some("LIST 1\nf_chunk0 1\n"), None];
    FirstChunkListed();
    TwoReplies(replies, [("f_chunk0", 1)]);
    FirstChunkCollected();
    FirstChunkFinished();
    var server := Booted(Config(2, 1, 1), [map["f_chunk0" := "x"], map["f_chunk1" := "y"]], replies);
    ghost var es;
    OneChunkRead(server.disks);
    ghost var last;
    reply, emitted, last, es := HandleDownload(server, 0, "f", (k, node) => Health.Serving, Alone);
  }

  lemma OneChunkRead(disks: Disks)
    requires |disks| == 2 && disks[0] == map["f_chunk0" := "x"]
    ensures ReadAll(disks, "f", [ChunkMeta(0, 1, [0])], {} + Useless((k, node) => Health.Serving, 2)) == "x"
    ensures Contiguous([ChunkMeta(0, 1, [0])])
  {
    var c := ChunkMeta(0, 1, [0]);
    assert ChunkName("f", 0) == "f_chunk0";
    assert [c][..0] == [];
    assert {} + Useless((k, node) => Health.Serving, 2) == {};
    ReadChunkFinds(disks, "f_chunk0", [0], {}, "x");
    assert 0 in c.ids && Reached([0], {});
  }
}
