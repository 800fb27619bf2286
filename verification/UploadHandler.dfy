/** handle_upload: validation, admission, the chunk loop, and the three ways out, with whatever
    other handlers do between its blocks. */
module UploadHandler {
  import opened Wrappers
  import opened Text
  import opened Descriptors
  import opened ChunkNames
  import opened Chunking
  import opened Load
  import opened Cluster
  import opened Invariants
  import opened Bytes
  import opened Contents
  import opened Orphans
  import opened Runs
  import opened Attribution
  import opened Replication
  import opened Steps
  import opened Interference
  import opened Coordinator

  /** What the handler's local variables say about its upload. */
  ghost predicate Locals(u: Upload, name: string, chunks: seq<ChunkMeta>, fds: set<nat>, reduced: bool,
                         failed: set<nat>) {
    u.name == name && u.chunks == chunks && u.fds == fds && u.reduced == reduced && u.failed == failed
  }

  ghost predicate SameLocals(u: Upload, v: Upload) {
    v == u.(phase := v.phase, exact := v.exact)
  }

  /** The lock is free: other handlers may run. */
  method LetOthersRun(server: Server, ghost op: nat, others: Company, ghost m0: State, ghost before: seq<Event>)
    returns (ghost es: seq<Event>)
    requires server.Valid() && Works(m0, before, server.model, op, others)
    modifies server, server.index, server.index.nodeBytes
    ensures server.Valid() && Works(m0, es, server.model, op, others)
    ensures server.model.uploads[op] == old(server.model).uploads[op]
    ensures others.Alone? ==> server.model == old(server.model)
    ensures Starved(m0, before, op) ==> Starved(m0, es, op)
    ensures Named(m0) ==> KeepsFiles(old(server.disks), server.disks, server.model.uploads[op].name)
  {
    hide Ran, Shaped, IndexAgrees, Foreign, Continues, KeepsFiles, Plenty;
    ghost var m := server.model;
    ghost var turn := server.LetOthers(op, others);
    WorksAmong(m0, before, m, turn, server.model, op, others);
    es := before + turn;
    if others.Alone? {
      AloneNothing(m, turn, server.model, op);
    }
    if Starved(m0, before, op) {
      StarvedLater(m0, before, m, turn, server.model, op);
    }
    if Named(m0) {
      RunKeepsNamed(m0, before, m);
      OthersLeaveFiles(m, turn, server.model, op, others);
    }
  }

  /** One worker thread, as the next step of a run. u is the upload when its bytes were reserved. */
  method StoreNext(server: Server, ghost op: nat, ghost u: Upload, chunkName: string, piece: string, node: nat,
                   a: Answer, ghost others: Company, ghost m0: State, ghost before: seq<Event>)
    returns (ghost es: seq<Event>)
    requires server.Valid() && Works(m0, before, server.model, op, others) && server.model.uploads[op].phase.Storing?
    requires node in server.model.uploads[op].phase.chosen && node !in server.model.uploads[op].phase.answers
    requires SameLocals(u, server.model.uploads[op])
    requires chunkName == ChunkName(u.name, |u.chunks|) && piece == Piece(u, server.cfg)
    modifies server`model, server`disks
    ensures server.Valid() && Works(m0, es, server.model, op, others) && SameLocals(u, server.model.uploads[op])
    ensures var p := old(server.model).uploads[op].phase;
            server.model.uploads[op].phase == Storing(p.chosen, p.answers[node := a.acked])
    ensures a.acked ==> server.model.uploads[op].exact == old(server.model).uploads[op].exact
  {
    hide IsRun, End, IndexAgrees;
    ghost var m := server.model;
    assert UploadShaped(m.uploads[op], m.cfg);
    server.StoreReplica(op, chunkName, piece, node, a);
    WorksOn(m0, before, m, StoreReply(op, node, a.acked, a.effect), server.model, others);
    es := before + [StoreReply(op, node, a.acked, a.effect)];
  }

  /** The first n of the chosen nodes have answered what they were going to, and no other. */
  ghost predicate Heard(chosen: seq<nat>, answers: map<nat, bool>, n: nat, k: nat, store: (nat, nat) -> Answer) {
    && Distinct(chosen) && (forall i :: 0 <= i < |chosen| ==> (chosen[i] in answers <==> i < n))
    && forall i :: i in answers ==> answers[i] == store(k, i).acked
  }

  lemma HeardNext(chosen: seq<nat>, answers: map<nat, bool>, n: nat, k: nat, store: (nat, nat) -> Answer)
    requires Heard(chosen, answers, n, k, store) && n < |chosen|
    ensures chosen[n] in chosen && chosen[n] !in answers
    ensures Heard(chosen, answers[chosen[n] := store(k, chosen[n]).acked], n + 1, k, store)
  {
  }

  /** Every one of these nodes will acknowledge chunk k. */
  ghost predicate WillingAt(nodes: set<nat>, k: nat, store: (nat, nat) -> Answer) {
    forall i :: i in nodes ==> store(k, i).acked
  }

  lemma ChosenAreDistinct(s: State, op: nat, chosen: seq<nat>)
    requires Shaped(s) && op in s.uploads && s.uploads[op].phase == Storing(chosen, map[])
    ensures Distinct(chosen)
  {
    assert UploadShaped(s.uploads[op], s.cfg);
  }

  /** The worker threads of one chunk. Each touches its own node only, so the order in which
      they finish does not matter. */
  method StoreReplicas(server: Server, ghost op: nat, chunkName: string, k: nat, piece: string, chosen: seq<nat>,
                       store: (nat, nat) -> Answer, others: Company, ghost m0: State, ghost before: seq<Event>)
    returns (answers: map<nat, bool>, ghost es: seq<Event>)
    requires server.Valid() && Works(m0, before, server.model, op, others)
    requires server.model.uploads[op].phase == Storing(chosen, map[])
    requires chunkName == ChunkName(server.model.uploads[op].name, |server.model.uploads[op].chunks|)
    requires piece == Piece(server.model.uploads[op], server.cfg)
    modifies server, server.index, server.index.nodeBytes
    ensures server.Valid() && Works(m0, es, server.model, op, others)
    ensures SameLocals(old(server.model).uploads[op], server.model.uploads[op])
    ensures server.model.uploads[op].phase == Storing(chosen, answers) && forall i :: i in chosen ==> i in answers
    ensures forall i :: i in answers ==> answers[i] == store(k, i).acked
    ensures WillingAt(ToSet(chosen), k, store) ==> server.model.uploads[op].exact == old(server.model).uploads[op].exact
  {
    hide IsRun, End, Shaped, IndexAgrees, Starved, KeepsFiles;
    ghost var u := server.model.uploads[op];
    answers, es := map[], before;
    ChosenAreDistinct(server.model, op, chosen);
    var n := 0;
    while n < |chosen|
      invariant 0 <= n <= |chosen|
      invariant server.Valid() && Works(m0, es, server.model, op, others)
      invariant SameLocals(u, server.model.uploads[op])
      invariant server.model.uploads[op].phase == Storing(chosen, answers) && Heard(chosen, answers, n, k, store)
      invariant WillingAt(ToSet(chosen), k, store) ==> server.model.uploads[op].exact == u.exact
    {
      var node := chosen[n];
      var a := store(k, node);
      HeardNext(chosen, answers, n, k, store);
      assert node in ToSet(chosen);
      es := LetOthersRun(server, op, others, m0, es);
      es := StoreNext(server, op, u, chunkName, piece, node, a, others, m0, es);
      answers := answers[node := a.acked];
      n := n + 1;
    }
  }

  /** What becomes of the upload when a chunk has been settled. */
  predicate NextPhase(p: Phase, n: nat, cfg: Config, count: nat, committed: seq<nat>) {
    p == if committed == [] then Aborting else if Offset(n, cfg.chunk, count) < n then Receiving else Sweeping(0)
  }

  method SelectNext(server: Server, ghost op: nat, fds: set<nat>, ghost others: Company, ghost m0: State,
                    ghost before: seq<Event>)
    returns (chosen: seq<nat>, ghost es: seq<Event>)
    requires server.Valid() && Works(m0, before, server.model, op, others)
    requires server.model.uploads[op].phase.Receiving?
    requires server.model.uploads[op].fds == fds && forall i :: i in fds ==> i < server.cfg.nodes
    modifies server`model
    ensures server.Valid() && Works(m0, es, server.model, op, others)
    ensures LeastLoaded(server.index.nodeBytes[..], fds - server.deadNodes, server.cfg.replicas, chosen)
    ensures chosen == [] ==> fds - server.deadNodes == {} && Starved(m0, es, op)
    ensures server.model.uploads[op]
            == old(server.model).uploads[op].(phase := if chosen == [] then Aborting else Selected(chosen))
  {
    hide IsRun, End, IndexAgrees, Starved;
    ghost var m := server.model;
    chosen := server.SelectNodes(op, fds);
    WorksOn(m0, before, m, Select(op, chosen), server.model, others);
    es := before + [Select(op, chosen)];
    if chosen == [] {
      StarvedOn(m0, before, m, Select(op, chosen), server.model);
    }
  }

  method ReserveNext(server: Server, ghost op: nat, chosen: seq<nat>, k: nat, size: nat, ghost others: Company,
                     ghost m0: State, ghost before: seq<Event>)
    returns (ghost es: seq<Event>)
    requires server.Valid() && Works(m0, before, server.model, op, others)
    requires server.model.uploads[op].phase == Selected(chosen)
    requires k == |server.model.uploads[op].chunks| && size == |Piece(server.model.uploads[op], server.cfg)|
    modifies server`model, server.index, server.index.nodeBytes
    ensures server.Valid() && Works(m0, es, server.model, op, others)
    ensures server.model.uploads[op] == old(server.model).uploads[op].(phase := Storing(chosen, map[]))
  {
    ghost var m := server.model;
    server.ReserveBytes(op, ChunkMeta(k, size, chosen));
    WorksOn(m0, before, m, Reserve(op), server.model, others);
    es := before + [Reserve(op)];
  }

  method SettleNext(server: Server, ghost op: nat, chosen: seq<nat>, answers: map<nat, bool>, k: nat, size: nat,
                    fds: set<nat>, ghost others: Company, ghost m0: State, ghost before: seq<Event>)
    returns (committed: seq<nat>, left: set<nat>, ghost es: seq<Event>)
    requires server.Valid() && Works(m0, before, server.model, op, others) && (forall i :: i in chosen ==> i in answers)
    requires server.model.uploads[op].phase == Storing(chosen, answers) && server.model.uploads[op].fds == fds
    requires k == |server.model.uploads[op].chunks| && size == |Piece(server.model.uploads[op], server.cfg)|
    modifies server`model, server`deadNodes, server.index, server.index.nodeBytes
    ensures server.Valid() && Works(m0, es, server.model, op, others)
    ensures committed == Answered(chosen, answers, true) && left == fds - ToSet(Answered(chosen, answers, false))
    ensures ToSet(Answered(chosen, answers, false)) <= server.deadNodes
    ensures server.model.uploads[op]
            == SettledUpload(old(server.model).uploads[op], server.cfg, committed, Answered(chosen, answers, false))
  {
    hide IsRun, End, Shaped, IndexAgrees, Answered;
    ghost var m := server.model;
    committed, left := server.SettleChunk(op, chosen, answers, ChunkMeta(k, size, []), fds);
    WorksOn(m0, before, m, Settle(op), server.model, others);
    es := before + [Settle(op)];
  }

  /** From a selection to the settled chunk. */
  method StoreChunk(server: Server, ghost op: nat, name: string, k: nat, piece: string, chosen: seq<nat>,
                    fds: set<nat>, store: (nat, nat) -> Answer, others: Company, ghost m0: State,
                    ghost before: seq<Event>)
    returns (committed: seq<nat>, left: set<nat>, ghost answers: map<nat, bool>, ghost es: seq<Event>)
    requires server.Valid() && Works(m0, before, server.model, op, others)
    requires server.model.uploads[op].phase == Selected(chosen)
    requires server.model.uploads[op].name == name && server.model.uploads[op].fds == fds
    requires k == |server.model.uploads[op].chunks| && piece == Piece(server.model.uploads[op], server.cfg)
    modifies server, server.index, server.index.nodeBytes
    ensures server.Valid() && Works(m0, es, server.model, op, others) && forall i :: i in chosen ==> i in answers
    ensures committed == Answered(chosen, answers, true) && left == fds - ToSet(Answered(chosen, answers, false))
    ensures ToSet(Answered(chosen, answers, false)) <= server.deadNodes
    ensures SettledAs(old(server.model).uploads[op], server.model.uploads[op], server.cfg,
                      ChunkMeta(k, |piece|, committed), left, ToSet(Answered(chosen, answers, false)))
    ensures forall i :: i in answers ==> answers[i] == store(k, i).acked
    ensures WillingAt(ToSet(chosen), k, store) ==> server.model.uploads[op].exact == old(server.model).uploads[op].exact
  {
    hide IsRun, End, Shaped, IndexAgrees, Starved, KeepsFiles, Answered;
    ghost var u := server.model.uploads[op];
    es := LetOthersRun(server, op, others, m0, before);
    es := ReserveNext(server, op, chosen, k, |piece|, others, m0, es);
    var heard;
    heard, es := StoreReplicas(server, op, ChunkName(name, k), k, piece, chosen, store, others, m0, es);
    answers := heard;
    es := LetOthersRun(server, op, others, m0, es);
    committed, left, es := SettleNext(server, op, chosen, heard, k, |piece|, fds, others, m0, es);
  }

  /** What settling one chunk does to the handler's variables. */
  ghost predicate SettledAs(u: Upload, v: Upload, cfg: Config, c: ChunkMeta, left: set<nat>, bad: set<nat>) {
    && v.name == u.name && v.content == u.content && v.fds == left && v.failed == u.failed + bad
    && v.chunks == (if c.ids == [] then u.chunks else u.chunks + [c])
    && v.reduced == (u.reduced || 0 < |c.ids| < cfg.replicas)
    && NextPhase(v.phase, |u.content|, cfg, |v.chunks|, c.ids)
  }

  /** No more nodes took part than were connected, and with no failed replica as many as wanted. */
  lemma TookPart(bytes: seq<int>, fds: set<nat>, wanted: nat, chosen: seq<nat>, answers: map<nat, bool>)
    requires LeastLoaded(bytes, fds, wanted, chosen) && forall i :: i in chosen ==> i in answers
    ensures |Answered(chosen, answers, true)| <= |fds|
    ensures fds - ToSet(Answered(chosen, answers, false)) == fds ==>
              |Answered(chosen, answers, true)| == Min(wanted, |fds|)
  {
    AnsweredFacts(chosen, answers, true);
    AnsweredFacts(chosen, answers, false);
    if fds - ToSet(Answered(chosen, answers, false)) == fds {
      forall i | i in chosen ensures answers[i] {
        assert i in fds - ToSet(Answered(chosen, answers, false));
      }
      AllGood(chosen, answers);
    }
  }

  /** Willing nodes do not fail. */
  lemma WillingAnswer(fds: set<nat>, chosen: seq<nat>, answers: map<nat, bool>, k: nat, store: (nat, nat) -> Answer)
    requires WillingAt(fds, k, store) && forall i :: i in chosen ==> i in fds && i in answers
    requires forall i :: i in answers ==> answers[i] == store(k, i).acked
    ensures fds - ToSet(Answered(chosen, answers, false)) == fds && Answered(chosen, answers, true) == chosen
  {
    AllGood(chosen, answers);
    AnsweredFacts(chosen, answers, false);
    assert ToSet(Answered(chosen, answers, false)) == {};
  }

  lemma WillingChosen(fds: set<nat>, chosen: seq<nat>, k: nat, store: (nat, nat) -> Answer)
    requires WillingAt(fds, k, store) && forall i :: i in chosen ==> i in fds
    ensures WillingAt(ToSet(chosen), k, store)
  {
  }

  /** What the answers of the chosen nodes mean for a chunk. */
  lemma PlacedOn(bytes: seq<int>, live: set<nat>, fds: set<nat>, wanted: nat, chosen: seq<nat>, answers: map<nat, bool>,
                 k: nat, store: (nat, nat) -> Answer)
    requires LeastLoaded(bytes, live, wanted, chosen) && live <= fds && chosen != []
    requires forall i :: i in chosen ==> i in answers
    requires forall i :: i in answers ==> answers[i] == store(k, i).acked
    ensures var bad, committed := ToSet(Answered(chosen, answers, false)), Answered(chosen, answers, true);
            && live != {} && |committed| <= |live| && fds - (fds - bad) == bad
            && (bad == {} ==> |committed| == Min(wanted, |live|))
            && (WillingAt(fds, k, store) ==> committed != [] && bad == {} && WillingAt(ToSet(chosen), k, store))
  {
    hide Answered;
    var bad := Answered(chosen, answers, false);
    assert chosen[0] in live;
    TookPart(bytes, live, wanted, chosen, answers);
    AnsweredFacts(chosen, answers, false);
    assert ToSet(bad) <= fds;
    if WillingAt(fds, k, store) {
      WillingAnswer(live, chosen, answers, k, store);
      WillingChosen(live, chosen, k, store);
      assert ToSet(bad) <= live;
    }
  }

  /** Everything done with one chunk that has been read: nodes are selected, bytes reserved, the
      replicas stored, the failures settled. `live` are the nodes there were to choose from. */
  method PlaceChunk(server: Server, ghost op: nat, name: string, k: nat, fds: set<nat>, piece: string,
                    store: (nat, nat) -> Answer, others: Company)
    returns (found: bool, committed: seq<nat>, left: set<nat>, ghost live: set<nat>, ghost es: seq<Event>)
    requires server.Valid() && op in server.model.uploads && server.model.uploads[op].phase.Receiving?
    requires server.model.uploads[op].name == name && server.model.uploads[op].fds == fds
    requires k == |server.model.uploads[op].chunks| && piece == Piece(server.model.uploads[op], server.cfg)
    requires forall i :: i in fds ==> i < server.cfg.nodes
    modifies server, server.index, server.index.nodeBytes
    ensures server.Valid() && Works(old(server.model), es, server.model, op, others)
    ensures live <= fds && left <= fds && fds - left <= server.deadNodes && |committed| <= |live|
    ensures left == fds && committed != [] ==> |committed| == Min(server.cfg.replicas, |live|)
    ensures var u, v := old(server.model).uploads[op], server.model.uploads[op];
            if found then SettledAs(u, v, server.cfg, ChunkMeta(k, |piece|, committed), left, fds - left)
            else committed == [] && left == fds && v == u.(phase := Aborting)
    ensures found <==> live != {}
    ensures !found ==> Starved(old(server.model), es, op)
    ensures WillingAt(fds, k, store) ==>
              left == fds && server.model.uploads[op].exact == old(server.model).uploads[op].exact
              && (found ==> committed != [])
  {
    hide IsRun, End, Shaped, IndexAgrees, LeastLoaded, Answered, ToSet, WillingAt, Starved, KeepsFiles;
    ghost var m0 := server.model;
    WorksNot(m0, op, others);
    es := LetOthersRun(server, op, others, m0, []);
    live := fds - server.deadNodes;
    var chosen: seq<nat>;
    chosen, es := SelectNext(server, op, fds, others, m0, es);
    if chosen == [] {
      return false, [], fds, live, es;
    }
    ghost var bytes := server.index.nodeBytes[..];
    found := true;
    ghost var answers;
    committed, left, answers, es := StoreChunk(server, op, name, k, piece, chosen, fds, store, others, m0, es);
    PlacedOn(bytes, live, fds, server.cfg.replicas, chosen, answers, k, store);
  }

  datatype Received = AllPlaced | ClientGone | NoNodesLeft | ReplicasFailed

  /** What the client connection will still deliver is a beginning of the content, or all of it
      and more. */
  ghost predicate Delivers(stream: string, content: string) {
    var n := Min(|content|, |stream|);
    stream[..n] == content[..n]
  }

  /** The bytes read for chunk k are that slice of the content. */
  lemma PieceArrives(stream: string, content: string, c: nat, k: nat, piece: string)
    requires Delivers(stream, content)
    requires var at, size := Offset(|content|, c, k), Min(c, |content| - Offset(|content|, c, k));
             at + size <= |stream| && piece == stream[at..][..size]
    ensures piece == Slice(content, c, k)
  {
    hide Delivers;
    var at, size := Offset(|content|, c, k), Min(c, |content| - Offset(|content|, c, k));
    assert Offset(|content|, c, k + 1) == at + size;
    SameSlice(stream, content, at, size);
  }

  lemma SameSlice(stream: string, content: string, at: nat, size: nat)
    requires Delivers(stream, content) && at + size <= |stream| && at + size <= |content|
    ensures stream[at..][..size] == content[at..at + size]
  {
    var n := Min(|content|, |stream|);
    TakeSlice(stream, n, at, at + size);
    TakeSlice(content, n, at, at + size);
    assert stream[at..][..size] == stream[at..at + size];
  }

  lemma TakeSlice(s: string, n: nat, a: nat, b: nat)
    requires a <= b <= n <= |s|
    ensures s[..n][a..b] == s[a..b]
  {
  }

  /** Reading the next chunk into a buffer. */
  method ReadPiece(client: Descriptor, chunk: nat, filesize: nat, bytesRead: nat, ghost stream: string,
                   ghost content: string, ghost k: nat) returns (ok: bool, piece: string)
    requires |content| == filesize && Delivers(stream, content) && chunk > 0 && bytesRead < filesize
    requires bytesRead == Offset(filesize, chunk, k) <= |stream| && client.incoming == stream[bytesRead..]
    modifies client`incoming
    ensures ok ==> piece == Slice(content, chunk, k) && bytesRead + |piece| == Offset(filesize, chunk, k + 1)
    ensures ok ==> piece != "" && bytesRead + |piece| <= |stream| && client.incoming == stream[bytesRead + |piece|..]
    ensures !ok ==> client.incoming == "" && |stream| < filesize
  {
    var size := Min(chunk, filesize - bytesRead);
    var buffer := new char[size];
    ok := RecvFileData(client, size, buffer);
    piece := buffer[..];
    if ok {
      PieceArrives(stream, content, chunk, k, piece);
    }
  }

  /** The handler at the head of its loop. */
  ghost predicate AtLoopHead(u: Upload, cfg: Config, name: string, chunks: seq<ChunkMeta>, left: set<nat>,
                             reduced: bool, failed: set<nat>, content: string, bytesRead: nat) {
    && Locals(u, name, chunks, left, reduced, failed) && u.content == content
    && bytesRead == Offset(|content|, cfg.chunk, |chunks|)
    && u.phase == if bytesRead < |content| then Receiving else Sweeping(0)
  }

  ghost method ClientLeaves(server: Server, op: nat, others: Company) returns (es: seq<Event>)
    requires server.Valid() && op in server.model.uploads && server.model.uploads[op].phase.Receiving?
    modifies server`model
    ensures server.Valid() && Works(old(server.model), es, server.model, op, others)
    ensures server.model.uploads[op] == old(server.model).uploads[op].(phase := Aborting)
  {
    var m0 := server.model;
    WorksNot(m0, op, others);
    server.LoseClient(op);
    WorksOn(m0, [], m0, ClientLost(op), server.model, others);
    es := [] + [ClientLost(op)];
  }

  /** The part of a round after the chunk has been read. */
  method PlaceNext(server: Server, ghost op: nat, name: string, chunks: seq<ChunkMeta>, fds: set<nat>, reduced: bool,
                   failed: set<nat>, piece: string, ghost nowRead: nat, store: (nat, nat) -> Answer, others: Company)
    returns (status: Received, all: seq<ChunkMeta>, left: set<nat>, fewer: bool, lost: set<nat>, ghost es: seq<Event>)
    requires server.Valid() && op in server.model.uploads && server.model.uploads[op].phase.Receiving?
    requires Locals(server.model.uploads[op], name, chunks, fds, reduced, failed)
    requires piece == Piece(server.model.uploads[op], server.cfg)
    requires nowRead == Offset(|server.model.uploads[op].content|, server.cfg.chunk, |chunks| + 1)
    requires forall i :: i in fds ==> i < server.cfg.nodes
    modifies server, server.index, server.index.nodeBytes
    ensures server.Valid() && Works(old(server.model), es, server.model, op, others) && !status.ClientGone?
    ensures left <= fds && left + lost == fds + failed
    ensures var u, content := server.model.uploads[op], old(server.model).uploads[op].content;
            if status.AllPlaced? then AtLoopHead(u, server.cfg, name, all, left, fewer, lost, content, nowRead)
            else Locals(u, name, all, left, fewer, lost) && u.phase == Aborting
    ensures status.NoNodesLeft? ==> Starved(old(server.model), es, op)
    ensures WillingAt(fds, |chunks|, store) ==>
              !status.ReplicasFailed? && left == fds && lost == failed
              && server.model.uploads[op].exact == old(server.model).uploads[op].exact
  {
    hide IsRun, End, Shaped, IndexAgrees, Starved, WillingAt;
    var found, committed;
    ghost var live;
    found, committed, left, live, es := PlaceChunk(server, op, name, |chunks|, fds, piece, store, others);
    fewer := reduced || 0 < |committed| < server.cfg.replicas;
    lost := failed + (fds - left);
    if committed == [] {
      all := chunks;
      status := if found then ReplicasFailed else NoNodesLeft;
    } else {
      all := chunks + [ChunkMeta(|chunks|, |piece|, committed)];
      status := AllPlaced;
    }
  }

  lemma ChunkIsPositive(s: State)
    requires Shaped(s)
    ensures s.cfg.chunk > 0
  {
  }

  /** One round of the loop. */
  method ReceiveChunk(server: Server, ghost op: nat, client: Descriptor, name: string, filesize: nat,
                      chunks: seq<ChunkMeta>, fds: set<nat>, reduced: bool, failed: set<nat>, bytesRead: nat,
                      store: (nat, nat) -> Answer, others: Company, ghost stream: string)
    returns (status: Received, all: seq<ChunkMeta>, left: set<nat>, fewer: bool, lost: set<nat>, nowRead: nat,
             ghost es: seq<Event>)
    requires server.Valid() && op in server.model.uploads && bytesRead < filesize
    requires forall i :: i in fds ==> i < server.cfg.nodes
    requires var content := server.model.uploads[op].content;
             && AtLoopHead(server.model.uploads[op], server.cfg, name, chunks, fds, reduced, failed, content, bytesRead)
             && |content| == filesize && Delivers(stream, content)
    requires bytesRead <= |stream| && client.incoming == stream[bytesRead..]
    modifies server, server.index, server.index.nodeBytes, client`incoming
    ensures server.Valid() && Works(old(server.model), es, server.model, op, others)
    ensures nowRead <= filesize && left <= fds && left + lost == fds + failed
    ensures var u, content := server.model.uploads[op], old(server.model).uploads[op].content;
            if status.AllPlaced? then
              bytesRead < nowRead && AtLoopHead(u, server.cfg, name, all, left, fewer, lost, content, nowRead)
            else Locals(u, name, all, left, fewer, lost) && u.phase == Aborting
    ensures if status.ClientGone? then client.incoming == "" && |stream| < filesize
            else nowRead <= |stream| && client.incoming == stream[nowRead..]
    ensures status.NoNodesLeft? ==> Starved(old(server.model), es, op)
    ensures WillingAt(fds, |chunks|, store) ==>
              !status.ReplicasFailed? && left == fds && lost == failed
              && server.model.uploads[op].exact == old(server.model).uploads[op].exact
  {
    hide IsRun, End, Shaped, IndexAgrees, Starved, WillingAt;
    all, left, fewer, lost, nowRead := chunks, fds, reduced, failed, bytesRead;
    ghost var content := server.model.uploads[op].content;
    ChunkIsPositive(server.model);
    var ok, piece := ReadPiece(client, server.cfg.chunk, filesize, bytesRead, stream, content, |chunks|);
    if !ok {
      es := ClientLeaves(server, op, others);
      status := ClientGone;
      return;
    }
    nowRead := bytesRead + |piece|;
    status, all, left, fewer, lost, es :=
      PlaceNext(server, op, name, chunks, fds, reduced, failed, piece, nowRead, store, others);
  }

  /** The nodes there were connections to at the start. */
  function ConnectedTo(u: Upload): set<nat> {
    u.fds + u.failed
  }

  /** Every one of these nodes will acknowledge every store. */
  ghost predicate Willing(nodes: set<nat>, store: (nat, nat) -> Answer) {
    forall k: nat :: WillingAt(nodes, k, store)
  }

  lemma WillingFewer(nodes: set<nat>, left: set<nat>, k: nat, store: (nat, nat) -> Answer)
    requires Willing(nodes, store) && left <= nodes
    ensures WillingAt(left, k, store)
  {
    assert WillingAt(nodes, k, store);
  }

  /** The loop of handle_upload. However it ends, bytesRead bytes have been taken off the
      client's stream, unless the stream has ended. */
  method ReceiveChunks(server: Server, ghost op: nat, client: Descriptor, name: string, filesize: nat, fds: set<nat>,
                       store: (nat, nat) -> Answer, others: Company)
    returns (status: Received, chunks: seq<ChunkMeta>, reduced: bool, failed: set<nat>, bytesRead: nat,
             ghost es: seq<Event>)
    requires server.Valid() && op in server.model.uploads && server.model.uploads[op].phase.Receiving?
    requires Locals(server.model.uploads[op], name, [], fds, false, {})
    requires forall i :: i in fds ==> i < server.cfg.nodes
    requires |server.model.uploads[op].content| == filesize > 0
    requires Delivers(client.incoming, server.model.uploads[op].content)
    modifies server, server.index, server.index.nodeBytes, client`incoming
    ensures server.Valid() && Works(old(server.model), es, server.model, op, others)
    ensures Locals(server.model.uploads[op], name, chunks, server.model.uploads[op].fds, reduced, failed)
    ensures ConnectedTo(server.model.uploads[op]) == fds
    ensures server.model.uploads[op].phase == if status.AllPlaced? then Sweeping(0) else Aborting
    ensures bytesRead <= filesize && (status.AllPlaced? ==> bytesRead == filesize && chunks != [])
    ensures if status.ClientGone? then client.incoming == "" && |old(client.incoming)| < filesize
            else bytesRead <= |old(client.incoming)| && client.incoming == old(client.incoming)[bytesRead..]
    ensures status.NoNodesLeft? ==> Starved(old(server.model), es, op)
    ensures Willing(fds, store) ==>
              !status.ReplicasFailed? && failed == {}
              && server.model.uploads[op].exact == old(server.model).uploads[op].exact
  {
    hide IsRun, End, Shaped, IndexAgrees, Starved, WillingAt;
    ghost var m0, stream, content := server.model, client.incoming, server.model.uploads[op].content;
    var left;
    left, chunks, reduced, failed, bytesRead, es, status := fds, [], false, {}, 0, [], AllPlaced;
    WorksNot(m0, op, others);
    while bytesRead < filesize
      invariant server.Valid() && Works(m0, es, server.model, op, others) && left <= fds && left + failed == fds
      invariant AtLoopHead(server.model.uploads[op], server.cfg, name, chunks, left, reduced, failed, content,
                           bytesRead)
      invariant bytesRead <= |stream| && client.incoming == stream[bytesRead..] && status.AllPlaced?
      invariant Willing(fds, store) ==>
                  left == fds && failed == {} && server.model.uploads[op].exact == m0.uploads[op].exact
      decreases filesize - bytesRead
    {
      ghost var before, steps := server.model, [];
      if Willing(fds, store) {
        WillingFewer(fds, left, |chunks|, store);
      }
      status, chunks, left, reduced, failed, bytesRead, steps :=
        ReceiveChunk(server, op, client, name, filesize, chunks, left, reduced, failed, bytesRead, store, others,
                     stream);
      WorksBoth(m0, es, before, steps, server.model, op, others);
      if status.NoNodesLeft? {
        StarvedLater(m0, es, before, steps, server.model, op);
      }
      es := es + steps;
      if !status.AllPlaced? {
        return;
      }
    }
  }

  // --------------------------------------------------------------------------- the ends

  /** new_placements: the copies the sweep must not touch. */
  method NewPlacements(chunks: seq<ChunkMeta>) returns (placed: set<(nat, nat)>)
    ensures forall k: nat, i: nat :: (k, i) in placed <==> Holds(Flatten(chunks), k, i)
  {
    placed := {};
    var copies := Flatten(chunks);
    var n := 0;
    while n < |copies|
      invariant 0 <= n <= |copies|
      invariant forall k: nat, i: nat :: (k, i) in placed <==> Holds(copies[..n], k, i)
    {
      HoldsOneMore(copies, n);
      placed := placed + {(copies[n].index, copies[n].node)};
      n := n + 1;
    }
    assert copies[..n] == copies;
  }

  lemma HoldsOneMore(copies: seq<Copy>, n: nat)
    requires n < |copies|
    ensures forall k: nat, i: nat :: Holds(copies[..n + 1], k, i) <==>
              Holds(copies[..n], k, i) || (k == copies[n].index && i == copies[n].node)
  {
    assert copies[..n + 1] == copies[..n] + [copies[n]];
    forall k: nat, i: nat | Holds(copies[..n], k, i) ensures Holds(copies[..n + 1], k, i) {
      var c :| c in copies[..n] && c.index == k && c.node == i;
      assert c in copies[..n + 1];
    }
    assert copies[n] in copies[..n + 1];
  }

  /** What becomes of the disks when one old copy is swept. */
  function After(disks: Disks, c: Copy, chunkName: string, kept: bool, reply: Option<Answer>): Disks
    requires c.node < |disks|
  {
    if kept || reply.None? then disks
    else Touch(disks, c.node, chunkName, if reply.value.acked then None else reply.value.effect)
  }

  method SweepNext(server: Server, ghost op: nat, c: Copy, chunkName: string, kept: bool, reply: Option<Answer>,
                   ghost others: Company, ghost m0: State, ghost before: seq<Event>)
    returns (ghost es: seq<Event>)
    requires server.Valid() && Works(m0, before, server.model, op, others)
    requires server.model.uploads[op].phase.Sweeping?
    requires server.model.uploads[op].phase.pos < |PriorCopies(server.model.uploads[op])|
    requires c == PriorCopies(server.model.uploads[op])[server.model.uploads[op].phase.pos]
    requires kept == Kept(server.model.uploads[op], c) && chunkName == ChunkName(server.model.uploads[op].name, c.index)
    modifies server`model, server`disks
    ensures server.Valid() && Works(m0, es, server.model, op, others)
    ensures SameSweep(old(server.model).uploads[op], server.model.uploads[op],
                      old(server.model).uploads[op].phase.pos + 1)
    ensures kept || (reply.Some? && reply.value.acked) ==>
              server.model.uploads[op].exact == old(server.model).uploads[op].exact
    ensures c.node < |old(server.disks)| && server.disks == After(old(server.disks), c, chunkName, kept, reply)
  {
    ghost var m := server.model;
    assert c in PriorCopies(m.uploads[op]) && UploadShaped(m.uploads[op], m.cfg);
    ghost var e := server.SweepCopy(op, c, chunkName, kept, reply);
    WorksOn(m0, before, m, e, server.model, others);
    es := before + [e];
  }

  /** The upload u with its sweep at this position. */
  ghost predicate SameSweep(u: Upload, v: Upload, pos: nat) {
    v == u.(phase := Sweeping(pos), exact := v.exact)
  }

  /** Every node that holds one of these copies can be reached and will acknowledge its deletion. */
  ghost predicate WillingToRemove(copies: seq<Copy>, remove: (nat, nat) -> Option<Answer>) {
    forall c :: c in copies ==> AcksRemoval(c, remove)
  }

  /** Of these copies, those that the new chunks do not also have are gone from every node that
      acknowledged their deletion. */
  ghost predicate Cleaned(disks: Disks, name: string, copies: seq<Copy>, chunks: seq<ChunkMeta>,
                          remove: (nat, nat) -> Option<Answer>) {
    forall c :: c in copies && !Holds(Flatten(chunks), c.index, c.node) && AcksRemoval(c, remove) ==>
      !OnDisk(disks, c.node, ChunkName(name, c.index))
  }

  predicate AcksRemoval(c: Copy, remove: (nat, nat) -> Option<Answer>) {
    remove(c.index, c.node).Some? && remove(c.index, c.node).value.acked
  }

  lemma CleanedNext(disks: Disks, name: string, copies: seq<Copy>, n: nat, chunks: seq<ChunkMeta>,
                    remove: (nat, nat) -> Option<Answer>)
    requires n < |copies| && copies[n].node < |disks| && Cleaned(disks, name, copies[..n], chunks, remove)
    ensures var c := copies[n];
            var after := After(disks, c, ChunkName(name, c.index), Holds(Flatten(chunks), c.index, c.node),
                               remove(c.index, c.node));
            Cleaned(after, name, copies[..n + 1], chunks, remove)
  {
    var c := copies[n];
    var kept, reply := Holds(Flatten(chunks), c.index, c.node), remove(c.index, c.node);
    var after := After(disks, c, ChunkName(name, c.index), kept, reply);
    if !kept && reply.Some? {
      OwnNameTouched(disks, c.node, name, c.index, if reply.value.acked then None else reply.value.effect);
    }
    forall x | x in copies[..n + 1] && !Holds(Flatten(chunks), x.index, x.node) && AcksRemoval(x, remove)
      ensures !OnDisk(after, x.node, ChunkName(name, x.index))
    {
      assert x in copies[..n] || x == c;
    }
  }

  lemma CleanedStays(before: Disks, after: Disks, name: string, copies: seq<Copy>, chunks: seq<ChunkMeta>,
                     remove: (nat, nat) -> Option<Answer>)
    requires KeepsFiles(before, after, name) && Cleaned(before, name, copies, chunks, remove)
    ensures Cleaned(after, name, copies, chunks, remove)
  {
  }

  /** The loop over the old file's copies. */
  method SweepOld(server: Server, ghost op: nat, name: string, replaced: FileMeta, chunks: seq<ChunkMeta>,
                  remove: (nat, nat) -> Option<Answer>, others: Company)
    returns (ghost es: seq<Event>)
    requires server.Valid() && Named(server.model)
    requires op in server.model.uploads && server.model.uploads[op].phase == Sweeping(0)
    requires server.model.uploads[op].prior == Some(replaced)
    requires server.model.uploads[op].name == name && server.model.uploads[op].chunks == chunks
    modifies server, server.index, server.index.nodeBytes
    ensures server.Valid() && Works(old(server.model), es, server.model, op, others)
    ensures SameSweep(old(server.model).uploads[op], server.model.uploads[op], |Flatten(replaced.chunks)|)
    ensures WillingToRemove(Flatten(replaced.chunks), remove) ==>
              server.model.uploads[op].exact == old(server.model).uploads[op].exact
    ensures Cleaned(server.disks, name, Flatten(replaced.chunks), chunks, remove)
  {
    hide IsRun, End, Shaped, IndexAgrees, Starved, KeepsFiles;
    ghost var m0 := server.model;
    WorksNot(m0, op, others);
    es := [];
    var placed := NewPlacements(chunks);
    var copies := Flatten(replaced.chunks);
    var n := 0;
    while n < |copies|
      invariant 0 <= n <= |copies|
      invariant server.Valid() && Works(m0, es, server.model, op, others)
      invariant SameSweep(m0.uploads[op], server.model.uploads[op], n)
      invariant WillingToRemove(copies, remove) ==> server.model.uploads[op].exact == m0.uploads[op].exact
      invariant Cleaned(server.disks, name, copies[..n], chunks, remove)
    {
      var c := copies[n];
      es := SweepAmong(server, op, name, copies, n, chunks, (c.index, c.node) in placed, remove, others, m0, es);
      assert WillingToRemove(copies, remove) ==> AcksRemoval(c, remove);
      n := n + 1;
    }
    assert copies[..n] == copies;
  }

  /** One copy, with whatever others do before. */
  method SweepAmong(server: Server, ghost op: nat, name: string, copies: seq<Copy>, n: nat,
                    ghost chunks: seq<ChunkMeta>,
                    kept: bool, remove: (nat, nat) -> Option<Answer>, others: Company, ghost m0: State,
                    ghost before: seq<Event>)
    returns (ghost es: seq<Event>)
    requires server.Valid() && Named(m0) && Works(m0, before, server.model, op, others) && n < |copies|
    requires server.model.uploads[op].phase == Sweeping(n) && copies == PriorCopies(server.model.uploads[op])
    requires server.model.uploads[op].name == name && server.model.uploads[op].chunks == chunks
    requires kept == Kept(server.model.uploads[op], copies[n])
    requires Cleaned(server.disks, name, copies[..n], chunks, remove)
    modifies server, server.index, server.index.nodeBytes
    ensures server.Valid() && Works(m0, es, server.model, op, others)
    ensures SameSweep(old(server.model).uploads[op], server.model.uploads[op], n + 1)
    ensures AcksRemoval(copies[n], remove) ==> server.model.uploads[op].exact == old(server.model).uploads[op].exact
    ensures Cleaned(server.disks, name, copies[..n + 1], chunks, remove)
  {
    hide IsRun, End, Shaped, IndexAgrees, Starved, KeepsFiles, Cleaned, PriorCopies, Kept;
    var c := copies[n];
    ghost var disks := server.disks;
    es := LetOthersRun(server, op, others, m0, before);
    CleanedStays(disks, server.disks, name, copies[..n], chunks, remove);
    disks := server.disks;
    KeptIs(server.model.uploads[op], c);
    es := SweepNext(server, op, c, ChunkName(name, c.index), kept, remove(c.index, c.node), others, m0, es);
    CleanedNext(disks, name, copies, n, chunks, remove);
  }

  lemma KeptIs(u: Upload, c: Copy)
    ensures Kept(u, c) == Holds(Flatten(u.chunks), c.index, c.node)
  {
  }

  /** t is s as if upload op had never been admitted, apart from what nodes have been through. */
  ghost predicate Undone(s: State, t: State, op: nat) {
    && op in s.uploads && t.load.bytes == s.load.bytes && t.meta == s.meta && t.contents == s.contents
    && t.pending == s.pending - {s.uploads[op].name} && t.uploads == s.uploads - {op}
    && t.deletions == s.deletions && t.downloads == s.downloads && t.drift == s.drift && t.cfg == s.cfg
    && OnlyCounts(s, t, s.uploads[op].name)
  }

  lemma AbortUndoes(s: State, t: State, u: State, op: nat)
    requires Shaped(s) && Advanced(s, t, op) && s.uploads[op].chunks == [] && s.uploads[op].phase.Admitted?
    requires Follows(t, Abort(op), u)
    ensures Undone(s, u, op)
  {
    assert u.uploads == s.uploads - {op};
    forall i: nat | i < s.cfg.nodes ensures u.load.bytes[i] == s.load.bytes[i] {
      AbortBytes(t, op, i);
    }
  }

  /** The upload's own steps from s to t, and its last one to u, cancel out on every node. */
  ghost predicate Cancels(s: State, es: seq<Event>, t: State, u: State, op: nat) {
    && IsRun(s, es) && |t.load.bytes| == |u.load.bytes| == s.cfg.nodes
    && forall i: nat {:trigger u.load.bytes[i]} :: i < s.cfg.nodes ==>
         OwnChange(s, es, op, true, i) + (u.load.bytes[i] - t.load.bytes[i]) == 0
  }

  /** From right after its admission, s, to right after its last block, u, an upload that failed:
      whatever others did, its own steps have left no bytes and no metadata behind. */
  ghost predicate GaveUp(s: State, es: seq<Event>, t: State, u: State, op: nat, others: Company) {
    && Works(s, es, t, op, others) && t.uploads[op].phase.Aborting? && Follows(t, Abort(op), u)
    && Cancels(s, es, t, u, op) && u.meta == t.meta && u.contents == t.contents
    && u.pending == t.pending - {s.uploads[op].name} && u.uploads == t.uploads - {op}
    && (others.Alone? ==> Undone(s, u, op))
  }

  lemma AbortGivesUp(s: State, es: seq<Event>, t: State, u: State, op: nat, others: Company)
    requires Works(s, es, t, op, others) && Begun(s.uploads[op]) && Follows(t, Abort(op), u)
    ensures GaveUp(s, es, t, u, op, others)
  {
    forall i: nat | i < s.cfg.nodes
      ensures |t.load.bytes| == |u.load.bytes| == s.cfg.nodes
      ensures OwnChange(s, es, op, true, i) + (u.load.bytes[i] - t.load.bytes[i]) == 0
    {
      AbortIsNeutral(s, es, t, op, i);
    }
    if others.Alone? {
      AloneAdvances(s, es, t, op);
      AbortUndoes(s, t, u, op);
    }
  }

  /** The abort at the end of a run. */
  method AbortLast(server: Server, ghost op: nat, name: string, chunks: seq<ChunkMeta>, others: Company,
                   ghost m0: State,
                   ghost before: seq<Event>)
    returns (ghost mid: seq<Event>, ghost t: State)
    requires server.Valid() && Works(m0, before, server.model, op, others) && server.model.uploads[op].phase.Aborting?
    requires Begun(m0.uploads[op])
    requires server.model.uploads[op].name == name && server.model.uploads[op].chunks == chunks
    modifies server, server.index, server.index.nodeBytes
    ensures server.Valid() && GaveUp(m0, mid, t, server.model, op, others)
    ensures op in t.uploads && t.uploads[op] == old(server.model).uploads[op]
    ensures Starved(m0, before, op) ==> Starved(m0, mid, op)
  {
    hide IsRun, End, Shaped, IndexAgrees, Starved, KeepsFiles, GaveUp;
    mid := LetOthersRun(server, op, others, m0, before);
    t := server.model;
    server.AbortUpload(op, name, chunks);
    AbortGivesUp(m0, mid, t, server.model, op, others);
  }

  /** t is s with the upload's content committed under its name, and op finished. */
  ghost predicate Done(s: State, t: State, op: nat, file: FileMeta) {
    && op in s.uploads && t.cfg == s.cfg && file.total == |s.uploads[op].content|
    && t.meta == s.meta[s.uploads[op].name := file]
    && t.contents == s.contents[s.uploads[op].name := s.uploads[op].content] && s.uploads[op].name !in t.tainted
    && t.pending == s.pending - {s.uploads[op].name} && t.uploads == s.uploads - {op}
    && t.deletions == s.deletions && t.downloads == s.downloads && t.drift == s.drift
    && OnlyCounts(s, t, s.uploads[op].name)
  }

  lemma CommitDoes(s: State, t: State, u: State, op: nat)
    requires Advanced(s, t, op) && Follows(t, Commit(op), u)
    ensures Done(s, u, op, FileMeta(|t.uploads[op].content|, t.uploads[op].chunks))
  {
    assert u.uploads == s.uploads - {op};
  }

  /** From right after its admission, s, to right after its last block, u, an upload that stored its
      file: the metadata then names it under its name and nothing else has changed in it. */
  ghost predicate Finished(s: State, es: seq<Event>, t: State, u: State, op: nat, others: Company, file: FileMeta) {
    && Works(s, es, t, op, others) && t.uploads[op].phase.Sweeping? && Follows(t, Commit(op), u)
    && file == FileMeta(|s.uploads[op].content|, t.uploads[op].chunks)
    && u.meta == t.meta[s.uploads[op].name := file]
    && u.contents == t.contents[s.uploads[op].name := s.uploads[op].content] && s.uploads[op].name !in u.tainted
    && u.pending == t.pending - {s.uploads[op].name} && u.uploads == t.uploads - {op}
    && Tells(Warned(t.uploads[op]), file.chunks, Plenty(s, es, op, s.cfg.replicas), s.cfg.replicas)
    && (others.Alone? ==> Done(s, u, op, file))
  }

  lemma CommitSets(t: State, u: State, op: nat)
    requires Follows(t, Commit(op), u)
    ensures op in t.uploads && t.uploads[op].phase.Sweeping?
    ensures var v := t.uploads[op];
            && u.meta == t.meta[v.name := FileMeta(|v.content|, v.chunks)]
            && u.contents == t.contents[v.name := v.content] && v.name !in u.tainted
            && u.pending == t.pending - {v.name} && u.uploads == t.uploads - {op}
  {
  }

  lemma CommitFinishes(s: State, es: seq<Event>, t: State, u: State, op: nat, others: Company)
    requires Works(s, es, t, op, others) && Begun(s.uploads[op]) && Follows(t, Commit(op), u)
    ensures Finished(s, es, t, u, op, others, FileMeta(|s.uploads[op].content|, t.uploads[op].chunks))
  {
    hide Follows, Tells, Warned, Plenty, Done, Advanced, Begun;
    CommitSets(t, u, op);
    WarningTells(s, es, t, op);
    if others.Alone? {
      AloneAdvances(s, es, t, op);
      CommitDoes(s, t, u, op);
    }
  }

  lemma ExactAtEnd(s: State, es: seq<Event>, t: State, op: nat)
    requires Inv(s) && Ran(s, es, t) && op in t.uploads && t.uploads[op].exact
    requires t.uploads[op].phase == Sweeping(|PriorCopies(t.uploads[op])|)
    ensures Exactly(t.disks, t.uploads[op].name, t.uploads[op].chunks)
  {
    RunKeepsInv(s, es);
    SweptExactly(t.uploads[op], t);
  }

  /** The commit at the end of a run. */
  method CommitLast(server: Server, ghost op: nat, name: string, filesize: nat, prior: Option<FileMeta>,
                    chunks: seq<ChunkMeta>, ghost remove: (nat, nat) -> Option<Answer>, others: Company,
                    ghost m0: State,
                    ghost before: seq<Event>)
    returns (ghost mid: seq<Event>, ghost t: State)
    requires server.Valid() && Works(m0, before, server.model, op, others) && Begun(m0.uploads[op]) && Inv(m0)
    requires server.model.uploads[op].phase == Sweeping(|PriorCopies(server.model.uploads[op])|)
    requires server.model.uploads[op].name == name && server.model.uploads[op].chunks == chunks
    requires server.model.uploads[op].prior == prior && |server.model.uploads[op].content| == filesize
    requires Cleaned(server.disks, name, CopiesReplaced(prior), chunks, remove)
    modifies server, server.index, server.index.nodeBytes
    ensures server.Valid() && Finished(m0, mid, t, server.model, op, others, FileMeta(filesize, chunks))
    ensures op in t.uploads && t.uploads[op] == old(server.model).uploads[op]
    ensures old(server.model).uploads[op].exact ==> Exactly(server.disks, name, chunks)
    ensures Cleaned(server.disks, name, CopiesReplaced(prior), chunks, remove)
  {
    hide IsRun, End, Shaped, IndexAgrees, Starved, KeepsFiles, Finished, Cleaned, Exactly, Named, Sound, Conserved;
    hide Faithful, Tidy;
    ghost var disks := server.disks;
    mid := LetOthersRun(server, op, others, m0, before);
    CleanedStays(disks, server.disks, name, CopiesReplaced(prior), chunks, remove);
    t := server.model;
    if t.uploads[op].exact {
      ExactAtEnd(m0, mid, t, op);
    }
    server.CommitUpload(op, name, prior, FileMeta(filesize, chunks));
    CommitFinishes(m0, mid, t, server.model, op, others);
  }

  datatype UploadReply =
    | InvalidName | InProgress | NoNodes | ConnectionLost | NodesFailed
    | Stored(updated: bool, warned: bool)

  /** What the client is told, when connections to `fds` were open and the loop ended like this. */
  function Failure(status: Received): UploadReply
    requires !status.AllPlaced?
  {
    match status
    case ClientGone => ConnectionLost
    case NoNodesLeft => NoNodes
    case ReplicasFailed => NodesFailed
  }

  function CopiesReplaced(prior: Option<FileMeta>): seq<Copy> {
    if prior.Some? then Flatten(prior.value.chunks) else []
  }

  /** The success path after the last chunk. */
  method FinishUpload(server: Server, ghost op: nat, name: string, filesize: nat, prior: Option<FileMeta>,
                      chunks: seq<ChunkMeta>, remove: (nat, nat) -> Option<Answer>, others: Company, ghost m0: State,
                      ghost before: seq<Event>)
    returns (ghost mid: seq<Event>, ghost t: State)
    requires server.Valid() && Works(m0, before, server.model, op, others) && Begun(m0.uploads[op]) && Inv(m0)
    requires server.model.uploads[op].phase == Sweeping(0)
    requires server.model.uploads[op].name == name && server.model.uploads[op].chunks == chunks
    requires server.model.uploads[op].prior == prior && |server.model.uploads[op].content| == filesize
    modifies server, server.index, server.index.nodeBytes
    ensures server.Valid() && Finished(m0, mid, t, server.model, op, others, FileMeta(filesize, chunks))
    ensures op in t.uploads && SameLocals(t.uploads[op], old(server.model).uploads[op])
    ensures old(server.model).uploads[op].exact && WillingToRemove(CopiesReplaced(prior), remove) ==>
              Exactly(server.disks, name, chunks)
    ensures Cleaned(server.disks, name, CopiesReplaced(prior), chunks, remove)
  {
    hide IsRun, End, Shaped, IndexAgrees, Starved, KeepsFiles, Finished, Sound, Conserved, Faithful, Tidy;
    ghost var es := before;
    if prior.Some? {
      ghost var m, sweep := server.model, [];
      RunKeepsNamed(m0, before, m);
      sweep := SweepOld(server, op, name, prior.value, chunks, remove, others);
      WorksBoth(m0, before, m, sweep, server.model, op, others);
      es := before + sweep;
    }
    mid, t := CommitLast(server, op, name, filesize, prior, chunks, remove, others, m0, es);
  }

  /** The connections at the start, after whatever others have done since the admission. */
  method ConnectFirst(server: Server, ghost op: nat, unreachable: set<nat>, others: Company)
    returns (fds: set<nat>, ghost es: seq<Event>)
    requires server.Valid() && op in server.model.uploads && server.model.uploads[op].phase.Admitted?
    modifies server, server.index, server.index.nodeBytes
    ensures server.Valid() && Works(old(server.model), es, server.model, op, others)
    ensures fds !! server.deadNodes && (forall i :: i in fds ==> i < server.cfg.nodes)
    ensures others.Alone? ==> fds == Tried(old(server.model)) - unreachable
    ensures server.model.uploads[op]
            == old(server.model).uploads[op].(fds := fds, phase := if fds == {} then Aborting else Receiving)
  {
    hide IsRun, End, Starved, KeepsFiles, IndexAgrees;
    ghost var m0 := server.model;
    WorksNot(m0, op, others);
    es := LetOthersRun(server, op, others, m0, []);
    ghost var m := server.model;
    IndexVisitsLiveNodes(m);
    fds := server.ConnectAll(op, unreachable);
    WorksOn(m0, es, m, Connect(op, unreachable), server.model, others);
    es := es + [Connect(op, unreachable)];
  }

  /** The failing way out: what the client is still sending is drained, then the books are put
      back. */
  method FailUpload(server: Server, ghost op: nat, client: Descriptor, name: string, filesize: nat, bytesRead: nat,
                    status: Received, chunks: seq<ChunkMeta>, others: Company, ghost m0: State,
                    ghost before: seq<Event>)
    returns (ghost mid: seq<Event>, ghost t: State)
    requires server.Valid() && Works(m0, before, server.model, op, others) && server.model.uploads[op].phase.Aborting?
    requires Begun(m0.uploads[op]) && bytesRead <= filesize
    requires server.model.uploads[op].name == name && server.model.uploads[op].chunks == chunks
    modifies server, server.index, server.index.nodeBytes, client`incoming
    ensures server.Valid() && GaveUp(m0, mid, t, server.model, op, others)
    ensures op in t.uploads && t.uploads[op] == old(server.model).uploads[op]
    ensures Starved(m0, before, op) ==> Starved(m0, mid, op)
    ensures client.incoming
            == if status.ClientGone? then old(client.incoming)
               else old(client.incoming)[Min(filesize - bytesRead, |old(client.incoming)|)..]
  {
    hide IsRun, End, Shaped, IndexAgrees, Starved, GaveUp;
    if !status.ClientGone? && bytesRead < filesize {
      Drain(client, filesize - bytesRead);
    }
    mid, t := AbortLast(server, op, name, chunks, others, m0, before);
  }

  // ------------------------------------------------------------------ with nobody else at work

  /** The warning, and what its absence means to an upload that runs alone: without it no chunk is
      short of replicas, unless there were too few nodes to connect to in the first place. */
  predicate Told(warned: bool, chunks: seq<ChunkMeta>, connected: set<nat>, wanted: nat) {
    if warned then !Full(chunks, wanted) else Full(chunks, wanted) <==> |connected| >= wanted
  }

  ghost predicate Busy(u: Upload) {
    u.phase.Selected? || u.phase.Storing?
  }

  /** One event of an upload that runs alone and loses no connection. */
  ghost predicate AloneStepped(s: State, t: State, op: nat, selects: bool)
    requires op in s.uploads && op in t.uploads
  {
    && t.uploads[op].fds == s.uploads[op].fds && t.dead == s.dead && t.cfg == s.cfg
    && !t.uploads[op].phase.Admitted?
    && (!Busy(s.uploads[op]) ==> t.uploads[op].chunks == s.uploads[op].chunks)
    && (Busy(t.uploads[op]) ==> Busy(s.uploads[op]) || selects)
  }

  lemma AloneSettles(s: State, op: nat)
    requires Shaped(s) && Enabled(s, Settle(op)) && DoSettle(s, op).uploads[op].failed == {}
    ensures AloneStepped(s, DoSettle(s, op), op, false)
  {
    var u := s.uploads[op];
    assert ToSet(Answered(u.phase.chosen, u.phase.answers, false)) == {};
  }

  lemma AloneOtherwise(s: State, e: Event)
    requires Shaped(s) && Enabled(s, e) && InPlace(e) && !e.Settle? && !e.Connect?
    ensures AloneStepped(s, ApplyUpload(s, e), e.op, Selects(e, e.op))
  {
    hide Shaped;
  }

  lemma AloneStep(s: State, e: Event, t: State, op: nat)
    requires Follows(s, e, t) && InPlace(e) && e.op == op && op in s.uploads
    requires op in t.uploads && t.uploads[op].failed == {} && !s.uploads[op].phase.Admitted?
    ensures AloneStepped(s, t, op, Selects(e, op))
  {
    hide AloneStepped, Shaped;
    if e.Settle? {
      AloneSettles(s, op);
    } else {
      AloneOtherwise(s, e);
    }
  }

  /** Alone and without a lost connection, every selection chooses among all nodes connected to. */
  lemma {:induction false} AlonePlenty(s: State, es: seq<Event>, t: State, op: nat, n: nat)
    requires Works(s, es, t, op, Alone) && s.uploads[op].fds !! s.dead && t.uploads[op].failed == {}
    requires !s.uploads[op].phase.Admitted?
    ensures |s.uploads[op].fds| >= n ==> Plenty(s, es, op, n)
    ensures Plenty(s, es, op, n) && t.uploads[op].chunks != s.uploads[op].chunks ==>
              |s.uploads[op].fds| >= n || Busy(s.uploads[op])
    decreases |es|
  {
    if es != [] {
      var e := es[0];
      var m := Apply(s, e);
      assert Continues(e, op) && ByUpload(e, op);
      InPlaceReplaces(s, e);
      FailedGrows(m, es[1..], t, op);
      AloneStep(s, e, m, op);
      AlonePlenty(m, es[1..], t, op, n);
      assert s.uploads[op].fds - s.dead == s.uploads[op].fds;
    }
  }

  lemma FailedGrows(s: State, es: seq<Event>, t: State, op: nat)
    requires Works(s, es, t, op, Alone) && t.uploads[op].failed == {}
    ensures s.uploads[op].failed == {}
    decreases |es|
  {
    if es != [] {
      var e := es[0];
      assert Continues(e, op) && ByUpload(e, op);
      InPlaceReplaces(s, e);
      OwnStep(s, e);
      FailedGrows(Apply(s, e), es[1..], t, op);
    }
  }

  lemma AloneTells(s: State, es: seq<Event>, t: State, op: nat)
    requires Works(s, es, t, op, Alone) && s.uploads[op].phase.Receiving? && s.uploads[op].fds !! s.dead
    requires s.uploads[op].chunks == [] && !s.uploads[op].reduced && s.uploads[op].failed == {}
    requires t.uploads[op].phase.Sweeping? && t.uploads[op].chunks != []
    ensures Told(Warned(t.uploads[op]), t.uploads[op].chunks, s.uploads[op].fds, s.cfg.replicas)
  {
    RunFlags(s, es, op);
    if t.uploads[op].failed == {} {
      AlonePlenty(s, es, t, op, s.cfg.replicas);
    }
  }

  lemma AloneFindsNodes(s: State, es: seq<Event>, t: State, op: nat)
    requires Works(s, es, t, op, Alone) && s.uploads[op].phase.Receiving? && s.uploads[op].fds !! s.dead
    requires t.uploads[op].failed == {} && s.uploads[op].fds != {}
    ensures !Starved(s, es, op)
  {
    AlonePlenty(s, es, t, op, 1);
  }

  lemma DrainedAll(stream: string, n: nat, k: nat)
    requires k <= n && k <= |stream|
    ensures stream[k..][Min(n - k, |stream[k..]|)..] == stream[Min(n, |stream|)..]
  {
  }

  /** What a run alone, from right after the connections to the end of the loop, adds. */
  ghost predicate AloneOutcome(status: Received, chunks: seq<ChunkMeta>, reduced: bool, failed: set<nat>, fds: set<nat>,
                               wanted: nat) {
    && (status.AllPlaced? ==> Told(reduced && failed != {}, chunks, fds, wanted))
    && (status.NoNodesLeft? ==> failed != {})
  }

  /** The loop, and what it amounts to when nobody else is at work. */
  method ReceiveFirst(server: Server, ghost op: nat, client: Descriptor, name: string, filesize: nat, fds: set<nat>,
                      store: (nat, nat) -> Answer, others: Company, ghost m0: State, ghost before: seq<Event>)
    returns (status: Received, chunks: seq<ChunkMeta>, reduced: bool, failed: set<nat>, bytesRead: nat,
             ghost es: seq<Event>)
    requires server.Valid() && Works(m0, before, server.model, op, others) && server.model.uploads[op].phase.Receiving?
    requires Locals(server.model.uploads[op], name, [], fds, false, {}) && fds != {} && fds !! server.deadNodes
    requires forall i :: i in fds ==> i < server.cfg.nodes
    requires |server.model.uploads[op].content| == filesize > 0
    requires Delivers(client.incoming, server.model.uploads[op].content)
    modifies server, server.index, server.index.nodeBytes, client`incoming
    ensures server.Valid() && Works(m0, es, server.model, op, others)
    ensures Locals(server.model.uploads[op], name, chunks, server.model.uploads[op].fds, reduced, failed)
    ensures ConnectedTo(server.model.uploads[op]) == fds
    ensures server.model.uploads[op].phase == if status.AllPlaced? then Sweeping(0) else Aborting
    ensures bytesRead <= filesize && (status.AllPlaced? ==> bytesRead == filesize && chunks != [])
    ensures if status.ClientGone? then client.incoming == "" && |old(client.incoming)| < filesize
            else bytesRead <= |old(client.incoming)| && client.incoming == old(client.incoming)[bytesRead..]
    ensures status.NoNodesLeft? ==> Starved(m0, es, op)
    ensures Willing(fds, store) ==>
              !status.ReplicasFailed? && failed == {}
              && server.model.uploads[op].exact == old(server.model).uploads[op].exact
    ensures others.Alone? ==> AloneOutcome(status, chunks, reduced, failed, fds, server.cfg.replicas)
  {
    hide IsRun, End, Shaped, IndexAgrees, Starved, Willing;
    ghost var m1, steps := server.model, [];
    status, chunks, reduced, failed, bytesRead, steps :=
      ReceiveChunks(server, op, client, name, filesize, fds, store, others);
    WorksBoth(m0, before, m1, steps, server.model, op, others);
    es := before + steps;
    if status.NoNodesLeft? {
      StarvedLater(m0, before, m1, steps, server.model, op);
    }
    if others.Alone? && status.AllPlaced? {
      AloneTells(m1, steps, server.model, op);
    }
    if others.Alone? && status.NoNodesLeft? && failed == {} {
      AloneFindsNodes(m1, steps, server.model, op);
    }
  }

  /** Everything after the connections. */
  method ReceiveAndFinish(server: Server, ghost op: nat, client: Descriptor, name: string, filesize: nat,
                          prior: Option<FileMeta>, fds: set<nat>, store: (nat, nat) -> Answer,
                          remove: (nat, nat) -> Option<Answer>, others: Company, ghost m0: State,
                          ghost before: seq<Event>)
    returns (reply: UploadReply, chunks: seq<ChunkMeta>, ghost mid: seq<Event>, ghost t: State)
    requires server.Valid() && Works(m0, before, server.model, op, others) && server.model.uploads[op].phase.Receiving?
    requires Begun(m0.uploads[op]) && Inv(m0) && server.model.uploads[op].prior == prior
    requires Locals(server.model.uploads[op], name, [], fds, false, {}) && fds != {} && fds !! server.deadNodes
    requires forall i :: i in fds ==> i < server.cfg.nodes
    requires |server.model.uploads[op].content| == filesize > 0
    requires Delivers(client.incoming, server.model.uploads[op].content)
    modifies server, server.index, server.index.nodeBytes, client`incoming
    ensures server.Valid() && !reply.InvalidName? && !reply.InProgress?
    ensures client.incoming == old(client.incoming)[Min(filesize, |old(client.incoming)|)..]
    ensures !reply.Stored? ==> GaveUp(m0, mid, t, server.model, op, others)
    ensures reply.Stored? ==>
              && |old(client.incoming)| >= filesize && reply.updated == prior.Some?
              && Finished(m0, mid, t, server.model, op, others, FileMeta(filesize, chunks))
              && reply.warned == Warned(t.uploads[op])
              && Cleaned(server.disks, name, CopiesReplaced(prior), chunks, remove)
    ensures op in t.uploads && ConnectedTo(t.uploads[op]) == fds
    ensures reply.ConnectionLost? ==> |old(client.incoming)| < filesize
    ensures reply.NoNodes? ==> Starved(m0, mid, op)
    ensures Willing(fds, store) ==>
              (reply.Stored? && !reply.warned) || (reply.NoNodes? && !others.Alone?) || reply.ConnectionLost?
    ensures others.Alone? && reply.Stored? ==> Told(reply.warned, chunks, fds, server.cfg.replicas)
    ensures Willing(fds, store) && reply.Stored? && WillingToRemove(CopiesReplaced(prior), remove) ==>
              old(server.model).uploads[op].exact ==> Exactly(server.disks, name, chunks)
  {
    hide IsRun, End, Shaped, IndexAgrees, Starved, Willing, Cleaned, Exactly, Finished, GaveUp, Told, Inv;
    hide WillingToRemove;
    var status, reduced, failed, bytesRead;
    ghost var es;
    status, chunks, reduced, failed, bytesRead, es :=
      ReceiveFirst(server, op, client, name, filesize, fds, store, others, m0, before);
    if !status.AllPlaced? {
      if !status.ClientGone? {
        DrainedAll(old(client.incoming), filesize, bytesRead);
      }
      mid, t := FailUpload(server, op, client, name, filesize, bytesRead, status, chunks, others, m0, es);
      reply := Failure(status);
    } else {
      mid, t := FinishUpload(server, op, name, filesize, prior, chunks, remove, others, m0, es);
      reply := Stored(prior.Some?, reduced && failed != {});
    }
  }

  /** Everything after admission. */
  method Transfer(server: Server, ghost op: nat, client: Descriptor, name: string, filesize: nat,
                  prior: Option<FileMeta>, unreachable: set<nat>, store: (nat, nat) -> Answer,
                  remove: (nat, nat) -> Option<Answer>, others: Company)
    returns (reply: UploadReply, chunks: seq<ChunkMeta>, ghost mid: seq<Event>, ghost t: State)
    requires server.Valid() && Inv(server.model) && op in server.model.uploads
    requires Begun(server.model.uploads[op]) && server.model.uploads[op].name == name
    requires server.model.uploads[op].prior == prior && |server.model.uploads[op].content| == filesize > 0
    requires Delivers(client.incoming, server.model.uploads[op].content)
    modifies server, server.index, server.index.nodeBytes, client`incoming
    ensures server.Valid() && !reply.InvalidName? && !reply.InProgress?
    ensures client.incoming == old(client.incoming)[Min(filesize, |old(client.incoming)|)..]
    ensures !reply.Stored? ==> GaveUp(old(server.model), mid, t, server.model, op, others)
    ensures reply.Stored? ==>
              && |old(client.incoming)| >= filesize && reply.updated == prior.Some?
              && Finished(old(server.model), mid, t, server.model, op, others, FileMeta(filesize, chunks))
              && reply.warned == Warned(t.uploads[op])
              && Cleaned(server.disks, name, CopiesReplaced(prior), chunks, remove)
    ensures op in t.uploads && (others.Alone? ==> ConnectedTo(t.uploads[op]) == Tried(old(server.model)) - unreachable)
    ensures reply.ConnectionLost? ==> |old(client.incoming)| < filesize
    ensures reply.NoNodes? ==> ConnectedTo(t.uploads[op]) == {} || Starved(old(server.model), mid, op)
    ensures ConnectedTo(t.uploads[op]) == {} ==> reply.NoNodes?
    ensures Willing(ConnectedTo(t.uploads[op]), store) ==>
              || (reply.Stored? && !reply.warned) || reply.ConnectionLost?
              || (reply.NoNodes? && (others.Alone? ==> ConnectedTo(t.uploads[op]) == {}))
    ensures others.Alone? && reply.Stored? ==>
              Told(reply.warned, chunks, ConnectedTo(t.uploads[op]), server.cfg.replicas)
    ensures Willing(ConnectedTo(t.uploads[op]), store) && reply.Stored? ==>
              WillingToRemove(CopiesReplaced(prior), remove) && old(server.model).uploads[op].exact ==>
                Exactly(server.disks, name, chunks)
  {
    hide IsRun, End, Shaped, IndexAgrees, Starved, Willing, Cleaned, Exactly, Finished, GaveUp, Told, Inv;
    hide WillingToRemove;
    ghost var m0 := server.model;
    var fds;
    ghost var es;
    fds, es := ConnectFirst(server, op, unreachable, others);
    if fds == {} {
      chunks := [];
      mid, t := AbortLast(server, op, name, chunks, others, m0, es);
      Drain(client, filesize);
      reply := NoNodes;
    } else {
      reply, chunks, mid, t := ReceiveAndFinish(server, op, client, name, filesize, prior, fds, store, remove, others,
                                                m0, es);
    }
  }

  /** The check against ".." and "/". */
  predicate BadName(name: string) {
    '/' in name || exists p :: 0 <= p < |name| - 1 && name[p] == '.' && name[p + 1] == '.'
  }

  /** Which names that are. */
  lemma BadNameContains(name: string)
    ensures BadName(name) <==> Contains(name, "/") || Contains(name, "..")
  {
    if '/' in name {
      var p :| 0 <= p < |name| && name[p] == '/';
      ContainsAt(name, "/", p);
    } else if BadName(name) {
      var p :| 0 <= p < |name| - 1 && name[p] == '.' && name[p + 1] == '.';
      ContainsAt(name, "..", p);
    }
    forall a, b | name == a + "/" + b ensures '/' in name {
      assert name[|a|] == '/';
    }
    forall a, b | name == a + ".." + b ensures BadName(name) {
      assert name[|a|] == '.' && name[|a| + 1] == '.';
    }
  }

  /** Single dots are fine, two in a row are not. */
  lemma SomeNames()
    ensures !BadName("test.txt") && !BadName(".a.b.") && BadName("a..b") && BadName("a/b")
  {
    assert "a..b"[1] == '.' && "a..b"[2] == '.';
    assert "a/b"[1] == '/';
  }

  /** The content the client means to send, as far as it arrives. */
  ghost function Meant(stream: string, n: nat): (content: string)
    ensures |content| == n && Delivers(stream, content)
  {
    if n <= |stream| then stream[..n] else stream + seq(n - |stream|, _ => ' ')
  }

  /** What an upload with nobody else at work amounts to. */
  ghost predicate Undisturbed(s: State, u: State, name: string, reply: UploadReply, connected: set<nat>) {
    && SameFlights(s, u) && u.pending == s.pending && OnlyCounts(s, u, name)
    && (if reply.Stored? then
          && name in u.meta && u.meta == s.meta[name := u.meta[name]]
          && Told(reply.warned, u.meta[name].chunks, connected, s.cfg.replicas)
        else u.meta == s.meta && u.load.bytes == s.load.bytes)
  }

  lemma FailureIsNeutral(s: State, t: State, u: State, op: nat, name: string, content: string)
    requires Named(s) && Follows(s, Admit(op, name, content), t) && Undone(t, u, op)
    ensures u.meta == s.meta && u.pending == s.pending && u.load.bytes == s.load.bytes && SameFlights(s, u)
    ensures OnlyCounts(s, u, name)
  {
    assert t.uploads[op].name == name && t.uploads - {op} == s.uploads;
  }

  lemma SuccessReplaces(s: State, t: State, u: State, op: nat, name: string, content: string, file: FileMeta)
    requires Named(s) && Follows(s, Admit(op, name, content), t) && Done(t, u, op, file)
    ensures u.meta == s.meta[name := file] && u.pending == s.pending && SameFlights(s, u)
    ensures OnlyCounts(s, u, name)
  {
    assert t.uploads[op].name == name && t.uploads[op].content == content && t.uploads - {op} == s.uploads;
  }

  lemma FinishedIsFaithful(s: State, es: seq<Event>, t: State, u: State, op: nat, others: Company, file: FileMeta)
    requires Inv(u) && Finished(s, es, t, u, op, others, file)
    ensures op in s.uploads && op in t.uploads
    ensures s.uploads[op].name in u.meta && u.meta[s.uploads[op].name] == file
    ensures FileFaithful(file, s.uploads[op].content, false, s.uploads[op].name, u.disks, u.cfg)
  {
  }

  function Listed(meta: map<string, FileMeta>, name: string): Option<FileMeta> {
    if name in meta then Some(meta[name]) else None
  }

  /** The checks before anything is received. A rejected payload is drained. */
  method AdmitOrReject(server: Server, ghost op: nat, client: Descriptor, name: string, filesize: nat,
                       ghost content: string)
    returns (rejection: Option<UploadReply>, prior: Option<FileMeta>)
    requires server.Valid() && PendingExact(server.model.pending, server.model.uploads)
    requires op !in server.model.uploads && content != ""
    requires forall o :: o in server.model.deletions ==> server.model.deletions[o].name != name
    modifies server, client`incoming
    ensures server.Valid()
    ensures rejection == if BadName(name) then Some(InvalidName)
                         else if name in old(server.pendingUploads) then Some(InProgress) else None
    ensures rejection == Some(InvalidName) <==> Contains(name, "/") || Contains(name, "..")
    ensures rejection.Some? ==>
              && server.model == old(server.model)
              && client.incoming == old(client.incoming)[Min(filesize, |old(client.incoming)|)..]
    ensures rejection.None? ==>
              && client.incoming == old(client.incoming) && prior == Listed(old(server.fileMetadata), name)
              && Follows(old(server.model), Admit(op, name, content), server.model)
              && prior == server.model.uploads[op].prior
  {
    hide Contains;
    BadNameContains(name);
    if BadName(name) {
      Drain(client, filesize);
      return Some(InvalidName), None;
    }
    var admitted;
    admitted, prior := server.AdmitUpload(op, name, content);
    if !admitted {
      Drain(client, filesize);
      return Some(InProgress), prior;
    }
    rejection := None;
  }

  /** Of an admitted upload: the states right after its admission and right before its last block,
      and everything that happened in between. */
  datatype Trace = Trace(begun: State, mid: seq<Event>, last: State)

  predicate WasAdmitted(reply: UploadReply) {
    !reply.InvalidName? && !reply.InProgress?
  }

  /** The whole run: admission, everything in between, commit or abort. */
  function Whole(op: nat, name: string, content: string, tr: Trace, stored: bool): seq<Event> {
    [Admit(op, name, content)] + tr.mid + [if stored then Commit(op) else Abort(op)]
  }

  lemma WholeRun(s: State, u: State, op: nat, name: string, content: string, tr: Trace, stored: bool, others: Company)
    requires Inv(s) && Follows(s, Admit(op, name, content), tr.begun) && Shaped(u)
    requires Works(tr.begun, tr.mid, tr.last, op, others)
    requires Follows(tr.last, if stored then Commit(op) else Abort(op), u)
    ensures Ran(s, Whole(op, name, content, tr, stored), u) && Inv(u)
  {
    var a, z := Admit(op, name, content), if stored then Commit(op) else Abort(op);
    InvKept(s, a);
    RanOne(s, a, tr.begun);
    RanBoth(s, [a], tr.begun, tr.mid, tr.last);
    RanOn(s, [a] + tr.mid, tr.last, z, u);
    RunKeepsInv(s, Whole(op, name, content, tr, stored));
  }

  /** handle_upload, with whatever other handlers do between its blocks. On every way out exactly
      filesize bytes have been taken off the client's stream, or all there were, so the next line
      read is the next command. A failed upload has cancelled its own steps; a successful one
      commits exactly the bytes received. All of it, with what others did, is a run of the state
      machine. */
  method HandleUpload(server: Server, ghost op: nat, client: Descriptor, name: string, filesize: nat,
                      unreachable: set<nat>, store: (nat, nat) -> Answer, remove: (nat, nat) -> Option<Answer>,
                      others: Company)
    returns (reply: UploadReply, ghost tr: Trace, ghost es: seq<Event>)
    requires server.Valid() && Inv(server.model) && op !in server.model.uploads && filesize > 0
    requires forall o :: o in server.model.deletions ==> server.model.deletions[o].name != name
    modifies server, server.index, server.index.nodeBytes, client`incoming
    ensures server.Valid() && Inv(server.model) && Ran(old(server.model), es, server.model)
    ensures client.incoming == old(client.incoming)[Min(filesize, |old(client.incoming)|)..]
    ensures reply.InvalidName? <==> Contains(name, "/") || Contains(name, "..")
    ensures reply.InProgress? <==> !BadName(name) && name in old(server.pendingUploads)
    ensures if WasAdmitted(reply) then
              && Follows(old(server.model), Admit(op, name, Meant(old(client.incoming), filesize)), tr.begun)
              && es == Whole(op, name, Meant(old(client.incoming), filesize), tr, reply.Stored?)
            else server.model == old(server.model) && es == []
    ensures WasAdmitted(reply) && !reply.Stored? ==> GaveUp(tr.begun, tr.mid, tr.last, server.model, op, others)
    ensures reply.Stored? ==>
              && |old(client.incoming)| >= filesize && reply.updated == (name in old(server.fileMetadata))
              && name in server.fileMetadata
              && Finished(tr.begun, tr.mid, tr.last, server.model, op, others, server.fileMetadata[name])
              && reply.warned == Warned(tr.last.uploads[op])
              && FileFaithful(server.fileMetadata[name], old(client.incoming)[..filesize], false, name,
                              server.disks, server.cfg)
              && Cleaned(server.disks, name, CopiesReplaced(Listed(old(server.fileMetadata), name)),
                         server.fileMetadata[name].chunks, remove)
    ensures reply.ConnectionLost? ==> |old(client.incoming)| < filesize
    ensures WasAdmitted(reply) ==> op in tr.last.uploads
    ensures reply.NoNodes? ==> ConnectedTo(tr.last.uploads[op]) == {} || Starved(tr.begun, tr.mid, op)
    ensures WasAdmitted(reply) && ConnectedTo(tr.last.uploads[op]) == {} ==> reply.NoNodes?
    ensures WasAdmitted(reply) && Willing(ConnectedTo(tr.last.uploads[op]), store) ==>
              || (reply.Stored? && !reply.warned) || reply.ConnectionLost?
              || (reply.NoNodes? && (others.Alone? ==> ConnectedTo(tr.last.uploads[op]) == {}))
    ensures var copies := CopiesReplaced(Listed(old(server.fileMetadata), name));
            reply.Stored? && Willing(ConnectedTo(tr.last.uploads[op]), store)
            && WillingToRemove(copies, remove) && NoOrphans(old(server.disks), name, copies) ==>
              Exactly(server.disks, name, server.fileMetadata[name].chunks)
    ensures others.Alone? && WasAdmitted(reply) ==>
              ConnectedTo(tr.last.uploads[op]) == Tried(old(server.model)) - unreachable
    ensures others.Alone? ==>
              Undisturbed(old(server.model), server.model, name, reply, Tried(old(server.model)) - unreachable)
  {
    hide Ran, Inv, FileFaithful, Undone, Done, Told, Exactly, Willing, WillingToRemove, Cleaned, NoOrphans, Tried;
    hide Shaped, IndexAgrees, Known, BadName, Works, Starved, Finished, GaveUp, Follows, Undisturbed, Contains;
    ghost var m0, stream := server.model, client.incoming;
    NothingYet(m0);
    BadNameContains(name);
    tr := Trace(m0, [], m0);
    ghost var content := Meant(stream, filesize);
    var rejection, prior := AdmitOrReject(server, op, client, name, filesize, content);
    if rejection.Some? {
      RejectedLeaves(m0, name, rejection.value, Tried(m0) - unreachable);
      return rejection.value, tr, [];
    }
    ghost var m1 := server.model;
    JustAdmitted(m0, m1, op, name, content);
    var chunks: seq<ChunkMeta>;
    ghost var mid, t;
    reply, chunks, mid, t := Transfer(server, op, client, name, filesize, prior, unreachable, store, remove, others);
    tr := Trace(m1, mid, t);
    es := Whole(op, name, content, tr, reply.Stored?);
    Concluded(m0, server.model, op, name, content, tr, reply, others, FileMeta(filesize, chunks));
  }

  lemma RejectedLeaves(s: State, name: string, reply: UploadReply, connected: set<nat>)
    requires !reply.Stored?
    ensures Undisturbed(s, s, name, reply, connected)
  {
  }

  /** What the handler's last block concludes. */
  lemma Concluded(s: State, u: State, op: nat, name: string, content: string, tr: Trace, reply: UploadReply,
                  others: Company, file: FileMeta)
    requires Inv(s) && Follows(s, Admit(op, name, content), tr.begun) && Shaped(u) && WasAdmitted(reply)
    requires if reply.Stored? then Finished(tr.begun, tr.mid, tr.last, u, op, others, file)
             else GaveUp(tr.begun, tr.mid, tr.last, u, op, others)
    requires reply.Stored? && others.Alone? ==>
               Told(reply.warned, file.chunks, ConnectedTo(tr.last.uploads[op]), s.cfg.replicas)
    ensures Ran(s, Whole(op, name, content, tr, reply.Stored?), u) && Inv(u)
    ensures reply.Stored? ==>
              name in u.meta && u.meta[name] == file && FileFaithful(file, content, false, name, u.disks, u.cfg)
    ensures others.Alone? ==> op in tr.last.uploads && Undisturbed(s, u, name, reply, ConnectedTo(tr.last.uploads[op]))
  {
    hide Ran, Inv, Sound, FileFaithful, Told, Tells, Cancels, Starved, Plenty, Warned, IsRun, End, Undone, Done;
    WholeRun(s, u, op, name, content, tr, reply.Stored?, others);
    InvIsNamed(s);
    AdmittedAs(s, tr.begun, op, name, content);
    if reply.Stored? {
      FinishedIsFaithful(tr.begun, tr.mid, tr.last, u, op, others, file);
      if others.Alone? {
        SuccessReplaces(s, tr.begun, u, op, name, content, file);
      }
    } else if others.Alone? {
      FailureIsNeutral(s, tr.begun, u, op, name, content);
    }
  }

  lemma InvIsNamed(s: State)
    requires Inv(s)
    ensures Named(s)
  {
  }

  lemma AdmittedAs(s: State, t: State, op: nat, name: string, content: string)
    requires Follows(s, Admit(op, name, content), t)
    ensures op in t.uploads && t.uploads[op].name == name && t.uploads[op].content == content && t.cfg == s.cfg
  {
  }

  lemma NothingYet(s: State)
    requires Inv(s)
    ensures Ran(s, [], s) && Named(s) && PendingExact(s.pending, s.uploads)
  {
    RanNothing(s);
  }

  lemma JustAdmitted(s: State, t: State, op: nat, name: string, content: string)
    requires Inv(s) && Follows(s, Admit(op, name, content), t)
    ensures Inv(t) && Tried(t) == Tried(s) && op in t.uploads
    ensures var u := t.uploads[op];
            && u.name == name && u.content == content && Begun(u)
            && u.prior == Listed(s.meta, name) && u.exact == NoOrphans(s.disks, name, CopiesReplaced(u.prior))
  {
    InvKept(s, Admit(op, name, content));
  }
}
