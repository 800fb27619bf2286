/** handle_download: the contiguity check and the fail-over loops over one connection at a time. */
module DownloadHandler {
  import opened Wrappers
  import opened ChunkNames
  import opened Load
  import opened Cluster
  import opened Runs
  import opened Resilience
  import opened Steps
  import opened Coordinator

  /** How a node behaves while one chunk is being fetched: it serves, is gone, accepts connections
      but never replies, or breaks off in the middle of a payload. */
  datatype Health = Serving | Refusing | Silent | Breaking

  /** Nodes behave the same from chunk to chunk. */
  ghost predicate Lasting(health: (nat, nat) -> Health) {
    forall k: nat, i: nat :: health(k, i) == health(0, i)
  }

  /** The nodes that will deliver nothing. */
  function Useless(health: (nat, nat) -> Health, nodes: nat): set<nat> {
    set i: nat | i < nodes && health(0, i) != Serving
  }

  /** Where the handler is: its download is at this replica of this chunk, and this has been
      handed to the client. */
  ghost predicate At(s: State, op: nat, name: string, chunks: seq<ChunkMeta>, k: nat, r: nat, emitted: string) {
    && op in s.downloads && s.downloads[op].name == name && s.downloads[op].meta.chunks == chunks
    && s.downloads[op].chunk == k && s.downloads[op].replica == r && s.downloads[op].emitted == emitted
  }

  /** What a download leaves alone. */
  ghost predicate OnlyReads(s: State, t: State, op: nat) {
    && t.uploads == s.uploads && t.deletions == s.deletions && t.downloads - {op} == s.downloads - {op}
    && t.meta == s.meta && t.disks == s.disks && t.load == s.load && t.pending == s.pending
    && t.contents == s.contents && t.tainted == s.tainted && t.stamps == s.stamps && t.cfg == s.cfg && s.dead <= t.dead
  }

  /** A stretch of the run of download op: with whatever others do, or alone. */
  ghost predicate Reads(s: State, es: seq<Event>, t: State, op: nat, others: Company) {
    && Ran(s, es, t) && t.cfg == s.cfg && (others.Alone? ==> OnlyReads(s, t, op))
    && (forall e :: e in es ==> ByDownload(e, op) || Elsewhere(e, op, others))
  }

  lemma RetrieveReads(s: State, op: nat, got: RetrieveReply)
    requires op in s.downloads && CanRetrieve(s, s.downloads[op], got)
    ensures OnlyReads(s, DoRetrieve(s, op, got), op)
  {
  }

  lemma BeginReads(s: State, op: nat, name: string)
    requires name in s.meta
    ensures OnlyReads(s, DoBeginDownload(s, op, name), op)
  {
  }

  lemma ReadsOne(s: State, e: Event, t: State)
    requires Follows(s, e, t) && (e.BeginDownload? || e.Retrieve? || e.EndDownload?)
    ensures OnlyReads(s, t, e.op)
  {
    if e.Retrieve? {
      RetrieveReads(s, e.op, e.got);
    } else if e.BeginDownload? {
      BeginReads(s, e.op, e.name);
    }
  }

  lemma ReadsOn(s: State, es: seq<Event>, t: State, e: Event, u: State, others: Company)
    requires Follows(t, e, u) && Shaped(u) && (e.BeginDownload? || e.Retrieve? || e.EndDownload?)
    requires Reads(s, es, t, e.op, others)
    ensures Reads(s, es + [e], u, e.op, others)
  {
    RanOn(s, es, t, e, u);
    ReadsOne(t, e, u);
  }

  lemma ReadsAmong(s: State, es: seq<Event>, t: State, fs: seq<Event>, u: State, op: nat, others: Company)
    requires Reads(s, es, t, op, others) && Meanwhile(t, fs, u, op, others)
    ensures Reads(s, es + fs, u, op, others)
  {
    RanBoth(s, es, t, fs, u);
    if others.Alone? {
      AloneNothing(t, fs, u, op);
    }
    forall e | e in es + fs ensures ByDownload(e, op) || Elsewhere(e, op, others) {
      assert e in es || e in fs;
    }
  }

  /** The lock is free: other handlers may run. */
  method LetOthersRun(server: Server, ghost op: nat, others: Company, ghost m0: State, ghost before: seq<Event>)
    returns (ghost es: seq<Event>)
    requires server.Valid() && Reads(m0, before, server.model, op, others) && op in server.model.downloads
    modifies server, server.index, server.index.nodeBytes
    ensures server.Valid() && Reads(m0, es, server.model, op, others)
    ensures op in server.model.downloads && server.model.downloads[op] == old(server.model).downloads[op]
    ensures others.Alone? ==> server.model == old(server.model)
  {
    hide Ran, Shaped, IndexAgrees, OnlyReads;
    ghost var m := server.model;
    ghost var turn := server.LetOthers(op, others);
    ReadsAmong(m0, before, m, turn, server.model, op, others);
    es := before + turn;
    if others.Alone? {
      AloneNothing(m, turn, server.model, op);
    }
  }

  /** One attempt, as the next step of a run. */
  method RetrieveNext(server: Server, ghost op: nat, name: string, chunks: seq<ChunkMeta>, k: nat, r: nat,
                      got: RetrieveReply, emitted: string, ghost others: Company, ghost m0: State,
                      ghost before: seq<Event>)
    returns (all: string, ghost es: seq<Event>)
    requires server.Valid() && Reads(m0, before, server.model, op, others)
    requires At(server.model, op, name, chunks, k, r, emitted)
    requires CanRetrieve(server.model, server.model.downloads[op], got) && chunks[k].index == k
    modifies server`model, server`deadNodes
    ensures server.Valid() && Reads(m0, es, server.model, op, others)
    ensures all == emitted + if got.Delivered? then server.disks[chunks[k].ids[r]][ChunkName(name, k)] else ""
    ensures if got.Delivered? || r + 1 == |chunks[k].ids| then At(server.model, op, name, chunks, k + 1, 0, all)
            else At(server.model, op, name, chunks, k, r + 1, all)
    ensures server.deadNodes
            == old(server.deadNodes) + if got.NoConnection? || got.NoReply? then {chunks[k].ids[r]} else {}
  {
    hide OnlyReads;
    ghost var m := server.model;
    var node := chunks[k].ids[r];
    all := emitted + if got.Delivered? then server.disks[node][ChunkName(name, k)] else "";
    server.Retrieve(op, node, got);
    ReadsOn(m0, before, m, Retrieve(op, got), server.model, others);
    es := before + [Retrieve(op, got)];
  }

  /** The nodes marked dead since the download began are nodes that do not serve. */
  ghost predicate DeadAreUseless(dead0: set<nat>, dead: set<nat>, health: (nat, nat) -> Health) {
    dead0 <= dead && forall i :: i in dead ==> i in dead0 || health(0, i) != Serving
  }

  /** A node like this leaves a request without any answer. */
  predicate Gone(h: Health) {
    h == Silent || h == Refusing
  }

  /** What one replica answers, on the connection that is open or on a new one. `active` is the
      node at the other end of the open connection. */
  method Ask(server: Server, node: nat, chunkName: string, health: Health, active: Option<nat>)
    returns (got: RetrieveReply, next: Option<nat>)
    ensures next == if got.NodeDead? then active else if got.Missing? || got.Delivered? then Some(node) else None
    ensures got.NodeDead? <==> node in server.deadNodes
    ensures got.NoConnection? <==> node !in server.deadNodes && active != Some(node) && health == Refusing
    ensures got.NoReply?
            <==> node !in server.deadNodes && (health == Silent || (health == Refusing && active == Some(node)))
    ensures got.Missing? <==> node !in server.deadNodes && !Gone(health) && !OnDisk(server.disks, node, chunkName)
    ensures got.CutShort?
            <==> node !in server.deadNodes && health == Breaking && OnDisk(server.disks, node, chunkName)
    ensures got.Delivered? <==> node !in server.deadNodes && health == Serving && OnDisk(server.disks, node, chunkName)
  {
    if node in server.deadNodes {
      return NodeDead, active;
    }
    if active != Some(node) && health == Refusing {
      return NoConnection, None;
    }
    next := Some(node);
    if Gone(health) {
      return NoReply, None;
    }
    if !OnDisk(server.disks, node, chunkName) {
      return Missing, next;
    }
    if health == Breaking {
      return CutShort, None;
    }
    got := Delivered;
  }

  /** Nobody else is at work and nodes keep behaving as they do: what is handed over is then what a
      fail-over read yields. */
  ghost predicate Calm(others: Company, health: (nat, nat) -> Health) {
    others.Alone? && Lasting(health)
  }

  /** What stays so while a chunk is being fetched in calm. */
  ghost predicate Steady(disks0: Disks, disks: Disks, dead0: set<nat>, dead: set<nat>, health: (nat, nat) -> Health) {
    disks == disks0 && DeadAreUseless(dead0, dead, health)
  }

  /** The first r replicas of a chunk yield nothing, so the next one is asked. */
  ghost predicate Passed(disks: Disks, chunkName: string, ids: seq<nat>, r: nat, down: set<nat>) {
    r <= |ids| && forall j :: 0 <= j < r ==> ids[j] in down || !OnDisk(disks, ids[j], chunkName)
  }

  /** The replicas that are asked for a chunk. */
  ghost function AskedAt(disks: Disks, chunkName: string, ids: seq<nat>, down: set<nat>): set<nat> {
    set r: nat | r < |ids| && Passed(disks, chunkName, ids, r, down) :: ids[r]
  }

  /** Those asked for any chunk of a file. */
  ghost function Asked(disks: Disks, f: string, chunks: seq<ChunkMeta>, down: set<nat>): set<nat> {
    set k: nat, i: nat | k < |chunks| && i in AskedAt(disks, ChunkName(f, k), chunks[k].ids, down) :: i
  }

  /** Of the nodes asked, exactly those that left the request without an answer are newly dead. */
  ghost predicate Marked(before: set<nat>, after: set<nat>, asked: set<nat>, health: (nat, nat) -> Health) {
    after == before + set i | i in asked && Gone(health(0, i))
  }

  lemma MarkedBoth(a: set<nat>, b: set<nat>, c: set<nat>, xs: set<nat>, ys: set<nat>, health: (nat, nat) -> Health)
    requires Marked(a, b, xs, health) && Marked(b, c, ys, health)
    ensures Marked(a, c, xs + ys, health)
  {
  }

  lemma AskedIsNone(disks: Disks, f: string, dead: set<nat>, down: set<nat>, health: (nat, nat) -> Health)
    ensures Asked(disks, f, [], down) == {} && Marked(dead, dead, {}, health)
  {
  }

  lemma AskedOneMore(disks: Disks, f: string, chunks: seq<ChunkMeta>, k: nat, down: set<nat>)
    requires k < |chunks|
    ensures Asked(disks, f, chunks[..k + 1], down)
            == Asked(disks, f, chunks[..k], down) + AskedAt(disks, ChunkName(f, k), chunks[k].ids, down)
  {
    hide AskedAt;
    forall i | i in Asked(disks, f, chunks[..k], down) + AskedAt(disks, ChunkName(f, k), chunks[k].ids, down)
      ensures i in Asked(disks, f, chunks[..k + 1], down)
    {
      if i in Asked(disks, f, chunks[..k], down) {
        var j: nat :| j < |chunks[..k]| && i in AskedAt(disks, ChunkName(f, j), chunks[..k][j].ids, down);
        assert chunks[..k + 1][j] == chunks[j];
      } else {
        assert chunks[..k + 1][k] == chunks[k];
      }
    }
  }

  /** The replicas passed over and the one that delivers, if any, are those asked. */
  lemma AskedUpTo(disks: Disks, chunkName: string, ids: seq<nat>, n: nat, down: set<nat>)
    requires n <= |ids| && Passed(disks, chunkName, ids, n, down)
    requires n < |ids| ==> !Passed(disks, chunkName, ids, n + 1, down)
    ensures AskedAt(disks, chunkName, ids, down) == ToSet(if n < |ids| then ids[..n + 1] else ids)
  {
    var these := if n < |ids| then ids[..n + 1] else ids;
    forall r: nat | r < |ids| && Passed(disks, chunkName, ids, r, down) ensures ids[r] in these {
      assert r <= n;
      assert these[r] == ids[r];
    }
    forall i | i in these ensures i in AskedAt(disks, chunkName, ids, down) {
      var r :| 0 <= r < |these| && these[r] == i;
      assert Passed(disks, chunkName, ids, r, down);
    }
  }

  /** One replica of one chunk, with whatever others do before. */
  method TryReplica(server: Server, ghost op: nat, name: string, chunks: seq<ChunkMeta>, k: nat, r: nat,
                    health: (nat, nat) -> Health, active: Option<nat>, emitted: string, others: Company,
                    ghost dead0: set<nat>, ghost m0: State, ghost before: seq<Event>)
    returns (delivered: bool, all: string, next: Option<nat>, ghost es: seq<Event>)
    requires server.Valid() && Reads(m0, before, server.model, op, others)
    requires At(server.model, op, name, chunks, k, r, emitted)
    requires k < |chunks| && chunks[k].index == k && r < |chunks[k].ids|
    requires Calm(others, health) ==> DeadAreUseless(dead0, server.deadNodes, health)
    modifies server, server.index, server.index.nodeBytes
    ensures server.Valid() && Reads(m0, es, server.model, op, others)
    ensures !delivered ==> all == emitted
    ensures if delivered || r + 1 == |chunks[k].ids| then At(server.model, op, name, chunks, k + 1, 0, all)
            else At(server.model, op, name, chunks, k, r + 1, all)
    ensures Calm(others, health) ==>
              Steady(old(server.disks), server.disks, dead0, server.deadNodes, health)
    ensures Calm(others, health) ==>
              var node, chunkName := chunks[k].ids[r], ChunkName(name, k);
              var reach := node !in dead0 + Useless(health, |server.disks|) && OnDisk(server.disks, node, chunkName);
              delivered == reach && (reach ==> all == emitted + server.disks[node][chunkName])
    ensures Calm(others, health) ==> Marked(old(server.deadNodes), server.deadNodes, {chunks[k].ids[r]}, health)
  {
    hide IsRun, End, Shaped, IndexAgrees;
    es := LetOthersRun(server, op, others, m0, before);
    var got;
    got, next := Ask(server, chunks[k].ids[r], ChunkName(name, k), health(k, chunks[k].ids[r]), active);
    assert Lasting(health) ==> health(k, chunks[k].ids[r]) == health(0, chunks[k].ids[r]);
    all, es := RetrieveNext(server, op, name, chunks, k, r, got, emitted, others, m0, es);
    delivered := got.Delivered?;
  }

  /** The loop over the replicas of one chunk. */
  method FetchChunk(server: Server, ghost op: nat, name: string, chunks: seq<ChunkMeta>, k: nat,
                    health: (nat, nat) -> Health, active: Option<nat>, emitted: string, others: Company,
                    ghost dead0: set<nat>, ghost m0: State, ghost before: seq<Event>)
    returns (all: string, next: Option<nat>, ghost es: seq<Event>)
    requires server.Valid() && Reads(m0, before, server.model, op, others)
    requires At(server.model, op, name, chunks, k, 0, emitted)
    requires k < |chunks| && chunks[k].index == k && chunks[k].ids != []
    requires Calm(others, health) ==> DeadAreUseless(dead0, server.deadNodes, health)
    modifies server, server.index, server.index.nodeBytes
    ensures server.Valid() && Reads(m0, es, server.model, op, others)
    ensures At(server.model, op, name, chunks, k + 1, 0, all)
    ensures Calm(others, health) ==>
              && Steady(old(server.disks), server.disks, dead0, server.deadNodes, health)
              && all == emitted + Got(ReadChunk(server.disks, ChunkName(name, k), chunks[k].ids,
                                                dead0 + Useless(health, |server.disks|)))
              && Marked(old(server.deadNodes), server.deadNodes,
                        AskedAt(server.disks, ChunkName(name, k), chunks[k].ids,
                                dead0 + Useless(health, |server.disks|)), health)
  {
    hide IsRun, End, Shaped, IndexAgrees, Calm, Useless, DeadAreUseless, Marked, AskedAt;
    ghost var disks0, start, calm := server.disks, server.deadNodes, Calm(others, health);
    ghost var bad := dead0 + Useless(health, |disks0|);
    var ids, chunkName := chunks[k].ids, ChunkName(name, k);
    all, next, es := emitted, active, before;
    var r := 0;
    MarkedNone(start, health);
    while r < |ids|
      invariant 0 <= r <= |ids| && all == emitted
      invariant server.Valid() && Reads(m0, es, server.model, op, others)
      invariant calm ==> Steady(disks0, server.disks, dead0, server.deadNodes, health)
      invariant if r < |ids| then At(server.model, op, name, chunks, k, r, all)
                else At(server.model, op, name, chunks, k + 1, 0, all)
      invariant calm ==> ReadChunk(disks0, chunkName, ids, bad) == ReadChunk(disks0, chunkName, ids[r..], bad)
      invariant calm ==> Passed(disks0, chunkName, ids, r, bad)
      invariant calm ==> Marked(start, server.deadNodes, ToSet(ids[..r]), health)
    {
      ghost var dead := server.deadNodes;
      assert ids[r..][0] == ids[r] && ids[r..][1..] == ids[r + 1..];
      var delivered;
      delivered, all, next, es := TryReplica(server, op, name, chunks, k, r, health, next, all, others, dead0, m0, es);
      if calm {
        MarkedNext(start, dead, server.deadNodes, ids, r, health);
      }
      if delivered {
        if calm {
          AskedUpTo(disks0, chunkName, ids, r, bad);
        }
        return;
      }
      r := r + 1;
    }
    if calm {
      AskedUpTo(disks0, chunkName, ids, r, bad);
    }
    assert ids[..r] == ids;
  }

  lemma MarkedNone(dead: set<nat>, health: (nat, nat) -> Health)
    ensures Marked(dead, dead, ToSet([]), health)
  {
  }

  lemma MarkedNext(start: set<nat>, dead: set<nat>, now: set<nat>, ids: seq<nat>, r: nat, health: (nat, nat) -> Health)
    requires r < |ids| && Marked(start, dead, ToSet(ids[..r]), health) && Marked(dead, now, {ids[r]}, health)
    ensures Marked(start, now, ToSet(ids[..r + 1]), health)
  {
    assert ids[..r + 1] == ids[..r] + [ids[r]];
    assert ToSet(ids[..r + 1]) == ToSet(ids[..r]) + {ids[r]};
    MarkedBoth(start, dead, now, ToSet(ids[..r]), {ids[r]}, health);
  }

  datatype DownloadReply = NotFound | MissingChunk(index: nat) | NoReplicas(index: nat) | Sending(total: nat)

  /** The first chunk that is wrong, and what is wrong with it. */
  predicate FirstFault(chunks: seq<ChunkMeta>, reply: DownloadReply) {
    && (reply.MissingChunk? || reply.NoReplicas?) && reply.index < |chunks| && Contiguous(chunks[..reply.index])
    && (reply.MissingChunk? ==> chunks[reply.index].index != reply.index)
    && (reply.NoReplicas? ==> chunks[reply.index].index == reply.index && chunks[reply.index].ids == [])
  }

  /** The check before anything is sent, chunk by chunk. */
  method CheckChunks(file: FileMeta) returns (reply: DownloadReply)
    ensures reply.Sending? <==> Contiguous(file.chunks)
    ensures reply.Sending?
            <==> forall k :: 0 <= k < |file.chunks| ==> file.chunks[k].index == k && file.chunks[k].ids != []
    ensures reply.Sending? ==> reply.total == file.total
    ensures !reply.Sending? ==> FirstFault(file.chunks, reply)
  {
    var expected := 0;
    while expected < |file.chunks|
      invariant 0 <= expected <= |file.chunks| && Contiguous(file.chunks[..expected])
    {
      if file.chunks[expected].index != expected {
        return MissingChunk(expected);
      }
      if file.chunks[expected].ids == [] {
        return NoReplicas(expected);
      }
      expected := expected + 1;
    }
    assert file.chunks[..expected] == file.chunks;
    reply := Sending(file.total);
  }

  /** The loop over the chunks. */
  method FetchAll(server: Server, ghost op: nat, name: string, chunks: seq<ChunkMeta>, health: (nat, nat) -> Health,
                  others: Company, ghost m0: State, ghost before: seq<Event>)
    returns (emitted: string, ghost es: seq<Event>)
    requires server.Valid() && Reads(m0, before, server.model, op, others)
    requires At(server.model, op, name, chunks, 0, 0, "") && Contiguous(chunks)
    modifies server, server.index, server.index.nodeBytes
    ensures server.Valid() && Reads(m0, es, server.model, op, others)
    ensures At(server.model, op, name, chunks, |chunks|, 0, emitted)
    ensures Calm(others, health) ==>
              && server.disks == old(server.disks)
              && emitted == ReadAll(server.disks, name, chunks, old(server.deadNodes) + Useless(health, |server.disks|))
              && Marked(old(server.deadNodes), server.deadNodes,
                        Asked(server.disks, name, chunks, old(server.deadNodes) + Useless(health, |server.disks|)),
                        health)
  {
    hide IsRun, End, Shaped, IndexAgrees, Calm, Useless, DeadAreUseless, Marked, Asked, AskedAt;
    ghost var disks0, dead0, calm := server.disks, server.deadNodes, Calm(others, health);
    ghost var bad := dead0 + Useless(health, |disks0|);
    DeadAtFirst(dead0, health);
    AskedIsNone(disks0, name, dead0, bad, health);
    emitted, es := "", before;
    var active, k := None, 0;
    while k < |chunks|
      invariant 0 <= k <= |chunks|
      invariant server.Valid() && Reads(m0, es, server.model, op, others)
      invariant calm ==> Steady(disks0, server.disks, dead0, server.deadNodes, health)
      invariant At(server.model, op, name, chunks, k, 0, emitted)
      invariant calm ==> emitted == ReadAll(disks0, name, chunks[..k], bad)
      invariant calm ==> Marked(dead0, server.deadNodes, Asked(disks0, name, chunks[..k], bad), health)
    {
      ghost var dead := server.deadNodes;
      emitted, active, es := FetchChunk(server, op, name, chunks, k, health, active, emitted, others, dead0, m0, es);
      ReadOneMore(disks0, name, chunks, k, bad);
      AskedOneMore(disks0, name, chunks, k, bad);
      if calm {
        MarkedBoth(dead0, dead, server.deadNodes, Asked(disks0, name, chunks[..k], bad),
                   AskedAt(disks0, ChunkName(name, k), chunks[k].ids, bad), health);
      }
      k := k + 1;
    }
    assert chunks[..k] == chunks;
  }

  lemma DeadAtFirst(dead: set<nat>, health: (nat, nat) -> Health)
    ensures DeadAreUseless(dead, dead, health)
  {
  }

  lemma ReadOneMore(disks: Disks, f: string, chunks: seq<ChunkMeta>, k: nat, down: set<nat>)
    requires k < |chunks| && chunks[k].index == k
    ensures ReadAll(disks, f, chunks[..k + 1], down)
            == ReadAll(disks, f, chunks[..k], down) + Got(ReadChunk(disks, ChunkName(f, k), chunks[k].ids, down))
  {
    assert chunks[..k + 1][..k] == chunks[..k];
  }

  method BeginNext(server: Server, ghost op: nat, name: string, file: FileMeta, ghost others: Company)
    returns (ghost es: seq<Event>)
    requires server.Valid() && op !in server.model.downloads && Contiguous(file.chunks)
    requires name in server.fileMetadata && server.fileMetadata[name] == file
    modifies server`model
    ensures server.Valid() && Reads(old(server.model), es, server.model, op, others)
    ensures At(server.model, op, name, file.chunks, 0, 0, "")
  {
    ghost var m0 := server.model;
    assert Reads(m0, [], m0, op, others);
    server.BeginDownload(op, name);
    ReadsOn(m0, [], m0, BeginDownload(op, name), server.model, others);
    es := [] + [BeginDownload(op, name)];
  }

  method EndNext(server: Server, ghost op: nat, ghost name: string, ghost chunks: seq<ChunkMeta>, ghost emitted: string,
                 ghost others: Company, ghost m0: State, ghost before: seq<Event>)
    returns (ghost es: seq<Event>)
    requires server.Valid() && Reads(m0, before, server.model, op, others)
    requires At(server.model, op, name, chunks, |chunks|, 0, emitted)
    modifies server`model
    ensures server.Valid() && Reads(m0, es, server.model, op, others) && op !in server.model.downloads
    ensures server.deadNodes == old(server.deadNodes)
  {
    hide OnlyReads;
    ghost var m := server.model;
    server.EndDownload(op);
    ReadsOn(m0, before, m, EndDownload(op), server.model, others);
    es := before + [EndDownload(op)];
  }

  lemma BackAgain(s: State, t: State, op: nat)
    requires OnlyReads(s, t, op) && op !in s.downloads && op !in t.downloads
    ensures SameFlights(s, t)
  {
    assert s.downloads == s.downloads - {op} && t.downloads == t.downloads - {op};
  }

  /** Right before a download ends: it has found a replica of every chunk, and since it began nobody
      has written to its name. */
  ghost predicate Complete(t: State, op: nat) {
    && op in t.downloads && t.downloads[op].clean && t.downloads[op].complete
    && t.downloads[op].stamp == Stamp(t.stamps, t.downloads[op].name)
  }

  /** Such a download has handed over exactly the committed bytes, whatever else went on. */
  lemma CompleteIsExact(s: State, es: seq<Event>, t: State, op: nat, name: string, chunks: seq<ChunkMeta>,
                        emitted: string)
    requires Reachable(s) && Ran(s, es, t) && At(t, op, name, chunks, |chunks|, 0, emitted) && Complete(t, op)
    ensures name in t.contents && emitted == t.contents[name]
  {
    RunStaysReachable(s, es);
    DownloadIsExact(t, op);
  }

  /** What follows the check. */
  method FetchFile(server: Server, ghost op: nat, name: string, file: FileMeta, health: (nat, nat) -> Health,
                   others: Company)
    returns (emitted: string, ghost last: State, ghost es: seq<Event>)
    requires server.Valid() && op !in server.model.downloads && Contiguous(file.chunks)
    requires name in server.fileMetadata && server.fileMetadata[name] == file
    modifies server, server.index, server.index.nodeBytes
    ensures server.Valid() && Reads(old(server.model), es, server.model, op, others) && op !in server.model.downloads
    ensures At(last, op, name, file.chunks, |file.chunks|, 0, emitted)
    ensures Reachable(old(server.model)) && Complete(last, op) ==>
              name in last.contents && emitted == last.contents[name]
    ensures Calm(others, health) ==>
              && server.disks == old(server.disks)
              && emitted == ReadAll(server.disks, name, file.chunks,
                                    old(server.deadNodes) + Useless(health, |server.disks|))
              && Marked(old(server.deadNodes), server.deadNodes,
                        Asked(server.disks, name, file.chunks,
                              old(server.deadNodes) + Useless(health, |server.disks|)), health)
  {
    hide IsRun, End, Shaped, IndexAgrees, Reachable, Calm, Useless, Marked, Asked;
    ghost var m0 := server.model;
    es := BeginNext(server, op, name, file, others);
    emitted, es := FetchAll(server, op, name, file.chunks, health, others, m0, es);
    last := server.model;
    if Reachable(m0) && Complete(last, op) {
      CompleteIsExact(m0, es, last, op, name, file.chunks, emitted);
    }
    es := EndNext(server, op, name, file.chunks, emitted, others, m0, es);
  }

  /** handle_download, with whatever other handlers do between its blocks. The bytes handed to the
      client are exactly the committed ones if every chunk was found and nobody wrote to the name;
      and when nobody else is at work, those of a fail-over read over the nodes that are neither
      dead nor failing. */
  method HandleDownload(server: Server, ghost op: nat, name: string, health: (nat, nat) -> Health, others: Company)
    returns (reply: DownloadReply, emitted: string, ghost last: State, ghost es: seq<Event>)
    requires server.Valid() && op !in server.model.downloads
    modifies server, server.index, server.index.nodeBytes
    ensures server.Valid() && Reads(old(server.model), es, server.model, op, others) && op !in server.model.downloads
    ensures reply.NotFound? <==> name !in old(server.fileMetadata)
    ensures reply.Sending? <==> name in old(server.fileMetadata) && Contiguous(old(server.fileMetadata)[name].chunks)
    ensures !reply.Sending? ==> emitted == "" && es == [] && server.model == old(server.model)
    ensures reply.NotFound? || reply.Sending? || FirstFault(old(server.fileMetadata)[name].chunks, reply)
    ensures reply.Sending? ==>
              && reply.total == old(server.fileMetadata)[name].total
              && At(last, op, name, old(server.fileMetadata)[name].chunks, |old(server.fileMetadata)[name].chunks|, 0,
                    emitted)
              && (Reachable(old(server.model)) && Complete(last, op) ==>
                    name in last.contents && emitted == last.contents[name])
    ensures others.Alone? ==>
              && SameFlights(old(server.model), server.model) && server.fileMetadata == old(server.fileMetadata)
              && server.disks == old(server.disks)
    ensures Calm(others, health) && reply.Sending? ==>
              && emitted == ReadAll(old(server.disks), name, old(server.fileMetadata)[name].chunks,
                                    old(server.deadNodes) + Useless(health, |old(server.disks)|))
              && Marked(old(server.deadNodes), server.deadNodes,
                        Asked(old(server.disks), name, old(server.fileMetadata)[name].chunks,
                              old(server.deadNodes) + Useless(health, |old(server.disks)|)), health)
  {
    hide IsRun, End, Shaped, IndexAgrees, Reachable, Calm, Useless, Marked, Asked;
    ghost var m0 := server.model;
    last := m0;
    RanNothing(m0);
    if name !in server.fileMetadata {
      return NotFound, "", last, [];
    }
    var file := server.fileMetadata[name];
    reply := CheckChunks(file);
    emitted, es := "", [];
    if reply.Sending? {
      emitted, last, es := FetchFile(server, op, name, file, health, others);
      if others.Alone? {
        BackAgain(m0, server.model, op);
      }
    }
  }
}
